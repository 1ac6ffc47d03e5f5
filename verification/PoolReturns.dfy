/**
 Accounts whose nonce falls when blocks are given up: their transactions come back through a batch,
 and what is missing among them may part those that come back from those that are still pending.
 */
module PoolReturns {
  import opened Common
  import opened TxSortedMap
  import opened TxList
  import opened PoolPlaces
  import opened PoolNonces
  import opened PoolSteps
  import opened PoolRuns

  predicate Returns(t: Terms, locals: set<Addr>, tx: Tx, a: Addr, k: nat) {
    tx.sender == a && tx.nonce == k && Passes(t, locals, tx, false)
  }

  /** A transaction with this nonce comes back and passes the checks. */
  ghost predicate Returned(t: Terms, locals: set<Addr>, txs: seq<Tx>, a: Addr, k: nat) {
    exists i :: 0 <= i < |txs| && Returns(t, locals, txs[i], a, k)
  }

  /** A transaction comes back that outbids another. */
  ghost predicate Outdone(t: Terms, locals: set<Addr>, txs: seq<Tx>, x: Tx) {
    exists i :: 0 <= i < |txs| && Returns(t, locals, txs[i], x.sender, x.nonce) && Outbids(x, txs[i], t.bump)
  }

  /** The state's nonce, which is below the old one `o`, comes back, but one between them does not,
      and `o` stays pending. All of this is known before the reset. */
  ghost predicate Parted(t: Terms, pending: Lists, locals: set<Addr>, txs: seq<Tx>, a: Addr, o: nat) {
    var n := t.nonces(a);
    && n < o && Returned(t, locals, txs, a, n) && (exists k :: n < k < o && !Returned(t, locals, txs, a, k))
    && Has(pending, a, o)
    && (Affordable(pending[a][o], t.balances(a), t.gas) || Outdone(t, locals, txs, pending[a][o]))
  }

  // ---------------------------------------------------------------- one after the other

  lemma OneMoreReturned(t: Terms, locals: set<Addr>, txs: seq<Tx>, tx: Tx, a: Addr, k: nat)
    ensures Returned(t, locals, txs + [tx], a, k) <==> Returned(t, locals, txs, a, k) || Returns(t, locals, tx, a, k)
  {
    hide Returns;
    var more := txs + [tx];
    if Returned(t, locals, txs, a, k) {
      var i :| 0 <= i < |txs| && Returns(t, locals, txs[i], a, k);
      assert Returns(t, locals, more[i], a, k);
    }
    if Returns(t, locals, tx, a, k) { assert Returns(t, locals, more[|txs|], a, k); }
    if Returned(t, locals, more, a, k) {
      var i :| 0 <= i < |more| && Returns(t, locals, more[i], a, k);
      assert i < |txs| ==> Returns(t, locals, txs[i], a, k);
    }
  }

  lemma OneMoreOutdone(t: Terms, locals: set<Addr>, txs: seq<Tx>, tx: Tx, x: Tx)
    ensures Outdone(t, locals, txs + [tx], x) <==>
              || Outdone(t, locals, txs, x)
              || (Returns(t, locals, tx, x.sender, x.nonce) && Outbids(x, tx, t.bump))
  {
    hide Returns, Outbids;
    var more := txs + [tx];
    if Outdone(t, locals, txs, x) {
      var i :| 0 <= i < |txs| && Returns(t, locals, txs[i], x.sender, x.nonce) && Outbids(x, txs[i], t.bump);
      assert Returns(t, locals, more[i], x.sender, x.nonce) && Outbids(x, more[i], t.bump);
    }
    if Returns(t, locals, tx, x.sender, x.nonce) && Outbids(x, tx, t.bump) {
      assert Returns(t, locals, more[|txs|], x.sender, x.nonce) && Outbids(x, more[|txs|], t.bump);
    }
    if Outdone(t, locals, more, x) {
      var i :| 0 <= i < |more| && Returns(t, locals, more[i], x.sender, x.nonce) && Outbids(x, more[i], t.bump);
      assert i < |txs| ==> Returns(t, locals, txs[i], x.sender, x.nonce) && Outbids(x, txs[i], t.bump);
    }
  }

  /** Below the old nonce `o` the queue of an account has exactly what has come back, and `o` is
      still taken by the old transaction, unless that has been outbid. */
  ghost predicate Comes(t: Terms, locals: set<Addr>, m0: Slots, m: Slots, q: Slots, txs: seq<Tx>, a: Addr, o: nat) {
    && m.Keys == m0.Keys
    && (forall k: nat :: k < o ==> (k in q <==> Returned(t, locals, txs, a, k)))
    && (forall k :: k in q && k < o ==> t.nonces(a) <= k && Affordable(q[k], t.balances(a), t.gas))
    && (o in m ==> if Outdone(t, locals, txs, m0[o]) then Affordable(m[o], t.balances(a), t.gas) else m[o] == m0[o])
  }

  /** What one more transaction of the account does: nothing, if it is not let in. */
  lemma NotCome(t: Terms, locals: set<Addr>, m0: Slots, m: Slots, q: Slots, txs: seq<Tx>, tx: Tx, a: Addr, o: nat)
    requires Comes(t, locals, m0, m, q, txs, a, o) && (o in m0 ==> m0[o].sender == a && m0[o].nonce == o)
    requires forall k :: k in m0 ==> o <= k
    requires !(tx.sender == a && Passes(t, locals, tx, false))
             || (tx.nonce in m && (m[tx.nonce] == tx || !Outbids(m[tx.nonce], tx, t.bump)))
             || (tx.nonce in q && !(tx.nonce in m))
    ensures Comes(t, locals, m0, m, q, txs + [tx], a, o)
  {
    hide Passes, Returned, Outdone;
    forall k: nat | k < o ensures k in q <==> Returned(t, locals, txs + [tx], a, k) {
      OneMoreReturned(t, locals, txs, tx, a, k);
    }
    if o in m { OneMoreOutdone(t, locals, txs, tx, m0[o]); }
  }

  lemma ComesPending(t: Terms, locals: set<Addr>, m0: Slots, m: Slots, q: Slots, txs: seq<Tx>, tx: Tx, a: Addr, o: nat)
    requires Comes(t, locals, m0, m, q, txs, a, o) && (o in m0 ==> m0[o].sender == a && m0[o].nonce == o)
    requires forall k :: k in m0 ==> o <= k
    requires tx.sender == a && Passes(t, locals, tx, false) && tx.nonce in m && Outbids(m[tx.nonce], tx, t.bump)
    ensures Comes(t, locals, m0, m[tx.nonce := tx], q, txs + [tx], a, o)
  {
    hide Returned, Outdone;
    forall k: nat | k < o ensures k in q <==> Returned(t, locals, txs + [tx], a, k) {
      OneMoreReturned(t, locals, txs, tx, a, k);
    }
    if o in m { OneMoreOutdone(t, locals, txs, tx, m0[o]); }
  }

  lemma ComesQueued(t: Terms, locals: set<Addr>, m0: Slots, m: Slots, q: Slots, txs: seq<Tx>, tx: Tx, a: Addr, o: nat)
    requires Comes(t, locals, m0, m, q, txs, a, o) && (o in m0 ==> m0[o].sender == a && m0[o].nonce == o)
    requires tx.sender == a && Passes(t, locals, tx, false) && tx.nonce !in m
    ensures Comes(t, locals, m0, m, q[tx.nonce := tx], txs + [tx], a, o)
  {
    hide Returned, Outdone;
    var q' := q[tx.nonce := tx];
    forall k: nat | k < o ensures k in q' <==> Returned(t, locals, txs + [tx], a, k) {
      OneMoreReturned(t, locals, txs, tx, a, k);
    }
    if o in m { OneMoreOutdone(t, locals, txs, tx, m0[o]); }
  }

  /** While transactions come back into a pool with room, `h0` at first: an account with something
      new is among the dirty ones. */
  ghost predicate Coming(t: Terms, h0: Held, h: Held, txs: seq<Tx>, dirty: set<Addr>, a: Addr, o: nat) {
    && Places(h.pending, h.queue, h.all, {}) && h.locals == h0.locals && h.virtual == h0.virtual
    && Comes(t, h0.locals, Of(h0.pending, a), Of(h.pending, a), Of(h.queue, a), txs, a, o)
    && ((exists k :: k in Of(h.queue, a) && k < o) ==> a in dirty)
  }

  /** The old pending nonces of an account start at `o`. */
  ghost predicate Starts(h0: Held, a: Addr, o: nat) {
    && (forall k :: k in Of(h0.pending, a) ==> o <= k)
    && (o in Of(h0.pending, a) ==> Of(h0.pending, a)[o].sender == a && Of(h0.pending, a)[o].nonce == o)
  }

  /** The lists of an account after a transaction has joined. */
  lemma JoinedAt(h: Held, tx: Tx, bump: nat, a: Addr)
    requires Places(h.pending, h.queue, h.all, {}) && tx !in h.all
    ensures var h', m, q, k := Joined(h, tx, bump), Of(h.pending, a), Of(h.queue, a), tx.nonce;
            && Places(h'.pending, h'.queue, h'.all, {}) && h'.locals == h.locals && h'.virtual == h.virtual
            && (tx.sender != a ==> Of(h'.pending, a) == m && Of(h'.queue, a) == q)
            && (tx.sender == a && k in m ==>
                  Of(h'.queue, a) == q && Of(h'.pending, a) == if Outbids(m[k], tx, bump) then m[k := tx] else m)
            && (tx.sender == a && k !in m ==>
                  Of(h'.pending, a) == m
                  && Of(h'.queue, a) == if k !in q || Outbids(q[k], tx, bump) then q[k := tx] else q)
            && (tx.sender == a && k !in m && k !in q ==> tx in h'.all)
  {
    hide Places, Outbids;
    if Has(h.pending, tx.sender, tx.nonce) {
      ReplacePending(h.pending, h.queue, h.all, tx);
    } else if Has(h.queue, tx.sender, tx.nonce) {
      ReplaceQueued(h.pending, h.queue, h.all, tx);
    } else {
      AddQueued(h.pending, h.queue, h.all, tx);
    }
  }

  /** Where a known transaction of the account is. */
  lemma KnownAt(h: Held, tx: Tx)
    requires Places(h.pending, h.queue, h.all, {}) && tx in h.all
    ensures var m, q := Of(h.pending, tx.sender), Of(h.queue, tx.sender);
            (tx.nonce in m && m[tx.nonce] == tx) || (tx.nonce in q && tx.nonce !in m)
  {
    hide Places;
    Found(h.pending, h.queue, h.all, tx);
  }

  lemma OneComes(t: Terms, h0: Held, h: Held, txs: seq<Tx>, dirty: set<Addr>, a: Addr, o: nat, tx: Tx, r: PoolError,
                 replaced: bool, h': Held)
    requires Starts(h0, a, o) && Coming(t, h0, h, txs, dirty, a, o) && |h.all| < t.Capacity()
    requires Admitted(t, h, tx, false, r, replaced, h') && (r == Accepted && !replaced ==> tx.sender in dirty)
    ensures Coming(t, h0, h', txs + [tx], dirty, a, o)
  {
    hide Places, Steps, Spares, Fits, Joined, Passes, Comes, Outbids, Returned;
    var m0, m, q := Of(h0.pending, a), Of(h.pending, a), Of(h.queue, a);
    if r == Accepted || r == ReplaceUnderpriced {
      JoinedAt(h, tx, t.bump, a);
      assert h' == Joined(h, tx, t.bump);
      if tx.sender == a && tx.nonce in m && Outbids(m[tx.nonce], tx, t.bump) {
        ComesPending(t, h0.locals, m0, m, q, txs, tx, a, o);
      } else if tx.sender == a && tx.nonce !in m && Of(h'.queue, a) == q[tx.nonce := tx] {
        ComesQueued(t, h0.locals, m0, m, q, txs, tx, a, o);
        if tx.nonce in q { assert a in dirty || tx.nonce >= o; }
      } else {
        NotCome(t, h0.locals, m0, m, q, txs, tx, a, o);
      }
    } else {
      if r == Known { KnownAt(h, tx); }
      NotCome(t, h0.locals, m0, m, q, txs, tx, a, o);
    }
  }

  lemma {:induction false} AllCome(t: Terms, h0: Held, txs: seq<Tx>, b: Batch, a: Addr, o: nat, n: nat)
    requires Chained(t, h0, txs, false, b) && n <= |b.rs| && |h0.all| + |txs| <= t.Capacity() && Starts(h0, a, o)
    requires Places(h0.pending, h0.queue, h0.all, {}) && forall k :: k in Of(h0.queue, a) ==> o <= k
    ensures Coming(t, h0, b.seen[n], txs[..n], Dirty(txs, b.rs, b.replaced), a, o)
  {
    hide Admitted, PastKept, Coming, Starts;
    if n == 0 {
      NoneCome(t, h0, Dirty(txs, b.rs, b.replaced), a, o);
      assert txs[..0] == [];
    } else {
      AllCome(t, h0, txs, b, a, o, n - 1);
      ChainPast(t, h0, txs, false, b, n - 1);
      assert txs[..n - 1] + [txs[n - 1]] == txs[..n];
      OneComes(t, h0, b.seen[n - 1], txs[..n - 1], Dirty(txs, b.rs, b.replaced), a, o, txs[n - 1], b.rs[n - 1],
               b.replaced[n - 1], b.seen[n]);
    }
  }

  lemma NoneCome(t: Terms, h0: Held, dirty: set<Addr>, a: Addr, o: nat)
    requires Places(h0.pending, h0.queue, h0.all, {}) && forall k :: k in Of(h0.queue, a) ==> o <= k
    ensures Coming(t, h0, h0, [], dirty, a, o)
  {
    hide Places;
  }

  // ---------------------------------------------------------------- what is pending then

  /** What one pending list becomes in a promotion within the limits, and what is expected next. */
  lemma PromotedAt(t: Terms, h: Held, mid: Held, h': Held, accounts: set<Addr>, a: Addr)
    requires Promoted(t, h, mid, h', accounts) && |h.all| <= t.globalSlots
    ensures h'.all <= h.all
    ensures a in accounts ==>
              Advanced(Of(h.pending, a), Of(h.queue, a), Expected(t.nonces, h.virtual, a), Of(h'.pending, a),
                       Of(mid.queue, a), t.nonces(a), t.balances(a), t.gas, a in h.locals, t.accountQueue)
    ensures a in accounts ==> Expected(t.nonces, h'.virtual, a) == Reached(
                Clean(Of(h.queue, a), t.nonces(a), t.balances(a), t.gas), Expected(t.nonces, h.virtual, a))
    ensures a !in accounts ==>
              Of(h'.pending, a) == Of(h.pending, a) && Expected(t.nonces, h'.virtual, a) ==
                Expected(t.nonces, h.virtual, a)
  {
    hide Advanced, Places, Total, Trimmed, CutTo, Swept, OneCut, Of, Reached, Clean;
    TotalBound(mid.pending, mid.queue, mid.all);
    SubsetSize(mid.all, h.all);
    assert Of(mid.pending, a) == Of(mid.pending, a);
    SameBut(h.virtual, mid.virtual, accounts);
  }

  lemma CleanHas(q: Slots, n: nat, cost: nat, gas: nat, k: nat)
    ensures k in Clean(q, n, cost, gas) <==> k in q && n <= k && Affordable(q[k], cost, gas)
    ensures k in Clean(q, n, cost, gas) ==> Clean(q, n, cost, gas)[k] == q[k]
  {
  }

  lemma AdvancedIs(p: Slots, q: Slots, start: nat, m: Slots, q': Slots, n: nat, cost: nat, gas: nat, local: bool,
                   limit: nat)
    requires Advanced(p, q, start, m, q', n, cost, gas, local, limit)
    ensures var c := Clean(q, n, cost, gas); m == p + Below(c, ReadyEnd(c, start))
  {
    hide Clean, ReadyEnd, Below, From, Lowest;
  }

  /** Nothing is ready without the state's nonce. */
  lemma NotStarted(p: Slots, q: Slots, m: Slots, q': Slots, n: nat, cost: nat, gas: nat, local: bool, limit: nat)
    requires n !in q && Advanced(p, q, n, m, q', n, cost, gas, local, limit)
    ensures m == p && Reached(Clean(q, n, cost, gas), n) == n
  {
    hide Clean, Affordable, RunEnd, Advanced;
    var c := Clean(q, n, cost, gas);
    AdvancedIs(p, q, n, m, q', n, cost, gas, local, limit);
    if c != map[] { CleanHas(q, n, cost, gas, LowestKey(c)); }
    assert ReadyEnd(c, n) == 0;
    assert p + Below(c, 0) == p;
  }

  /** The state's nonce comes back: so much of the queue is pending as has no gap. */
  lemma Started(p: Slots, q: Slots, o: nat, m: Slots, q': Slots, n: nat, cost: nat, gas: nat, local: bool, limit: nat)
    returns (e: nat)
    requires n in q && n < o && Advanced(p, q, n, m, q', n, cost, gas, local, limit) && !(o in p && o in q)
    requires forall k :: k in q && k < o ==> n <= k && Affordable(q[k], cost, gas)
    ensures n < e && (e < o ==> e !in q) && (o in p ==> e <= o)
    ensures forall k: nat :: k in m <==> k in p || n <= k < e
    ensures forall k: nat :: n <= k < e ==> k in q && m[k] == q[k] && Affordable(m[k], cost, gas)
    ensures forall k: nat :: k in p && !(n <= k < e) ==> m[k] == p[k]
  {
    hide Clean, Affordable, Advanced, RunEnd;
    var c := Clean(q, n, cost, gas);
    AdvancedIs(p, q, n, m, q', n, cost, gas, local, limit);
    forall k: nat ensures k in c <==> k in q && n <= k && Affordable(q[k], cost, gas)
      ensures k in c ==> c[k] == q[k]
    {
      CleanHas(q, n, cost, gas, k);
    }
    assert n in c && LowestKey(c) == n;
    e := RunEnd(c, n);
    assert ReadyEnd(c, n) == e;
  }

  /** What is pending then has a gap in front of `o` if and only if that can be paid for. */
  lemma GapInFront(p: Slots, q: Slots, o: nat, top: nat, m: Slots, e: nat, n: nat, cost: nat, gas: nat)
    requires n < e && n < o && (o in p ==> e <= o) && (forall k: nat :: k in p <==> o <= k < top)
    requires forall k: nat :: k in m <==> k in p || n <= k < e
    requires forall k: nat :: n <= k < e ==> Affordable(m[k], cost, gas)
    requires forall k: nat :: k in p && !(n <= k < e) ==> m[k] == p[k]
    ensures n in m && Affordable(m[n], cost, gas)
    ensures Gapless(m, n, cost, gas) <==> !(e < o && o in p && Affordable(p[o], cost, gas))
    ensures e < o && o in p && Affordable(p[o], cost, gas) ==> Payable(m, n, cost, gas, o)
  {
    hide Affordable;
    if e < o && o in p {
      if Affordable(p[o], cost, gas) {
        assert Payable(m, n, cost, gas, o) && e !in m;
      } else {
        assert forall k: nat :: Payable(m, n, cost, gas, k) ==> k < e by { assert o in m; }
      }
    }
  }

  lemma NoneTracked(t: Terms, h0: Held, h: Held, txs: seq<Tx>, dirty: set<Addr>, a: Addr, o: nat)
    requires Coming(t, h0, h, txs, dirty, a, o) && h0.virtual == map[]
    ensures Expected(t.nonces, h.virtual, a) == t.nonces(a)
  {
    hide Places, Comes;
  }

  /** What has come back and what was there, `last`, after the promotion that follows. */
  lemma BackAt(t: Terms, h0: Held, txs: seq<Tx>, b: Batch, back: Held, a: Addr, o: nat, top: nat)
    requires Batched(t, h0, txs, false, b, back) && |h0.all| + |txs| <= t.globalSlots && h0.virtual == map[]
    requires Places(h0.pending, h0.queue, h0.all, {}) && Starts(h0, a, o) && t.nonces(a) < o
    requires (forall k: nat :: k in Of(h0.pending, a) <==> o <= k < top) && forall k :: k in Of(h0.queue, a) ==> o <= k
    ensures Gap(t, h0, txs, back, a, o) && |back.all| <= t.globalSlots
  {
    hide Admitted, Promoted, Coming, Places, PastKept, Gap, Starts, Advanced, Reached, Clean, Dirty, Of;
    var last, dirty := b.seen[|txs|], Dirty(txs, b.rs, b.replaced);
    AllCome(t, h0, txs, b, a, o, |txs|);
    assert txs[..|txs|] == txs;
    NoneTracked(t, h0, last, txs, dirty, a, o);
    ChainLast(t, h0, txs, false, b);
    if dirty == {} {
      StaysBack(t, h0, txs, last, dirty, a, o);
    } else {
      PromotedAt(t, last, b.mid, back, dirty, a);
      SubsetSize(back.all, last.all);
      if a in dirty {
        ReturnsBack(t, h0, txs, last, dirty, Of(b.mid.queue, a), back, a, o, top);
      } else {
        StaysBack(t, h0, txs, last, dirty, a, o);
        GapSame(t, h0, txs, last, back, a, o);
      }
    }
  }

  /** An account has a gap in its pending list once its transactions have come back if and only if
      they are parted; then one that is missing is not known at all, and `o` will stay. */
  ghost predicate Gap(t: Terms, h0: Held, txs: seq<Tx>, back: Held, a: Addr, o: nat) {
    var m, n, parted := Of(back.pending, a), t.nonces(a), Parted(t, h0.pending, h0.locals, txs, a, o);
    && (Gapless(m, n, t.balances(a), t.gas) <==> !parted)
    && (if n in m then Affordable(m[n], t.balances(a), t.gas) else Expected(t.nonces, back.virtual, a) == n)
    && (parted ==> && n in m && Payable(m, n, t.balances(a), t.gas, o)
                   && exists e :: n < e < o && Unknown(back.all, a, e))
  }

  ghost predicate Unknown(all: set<Tx>, a: Addr, k: nat) {
    forall tx :: tx in all ==> !(tx.sender == a && tx.nonce == k)
  }

  lemma GapSame(t: Terms, h0: Held, txs: seq<Tx>, last: Held, back: Held, a: Addr, o: nat)
    requires Gap(t, h0, txs, last, a, o) && back.all <= last.all
    requires Of(back.pending, a) == Of(last.pending, a)
             && Expected(t.nonces, back.virtual, a) == Expected(t.nonces, last.virtual, a)
    ensures Gap(t, h0, txs, back, a, o)
  {
    hide Gapless, Parted, Payable;
    if Parted(t, h0.pending, h0.locals, txs, a, o) {
      var e :| t.nonces(a) < e < o && Unknown(last.all, a, e);
      assert Unknown(back.all, a, e);
    }
  }

  /** Nothing of the account has come back below `o`. */
  lemma StaysBack(t: Terms, h0: Held, txs: seq<Tx>, last: Held, dirty: set<Addr>, a: Addr, o: nat)
    requires Coming(t, h0, last, txs, dirty, a, o) && Starts(h0, a, o) && t.nonces(a) < o && a !in dirty
             && h0.virtual == map[]
    ensures Gap(t, h0, txs, last, a, o)
  {
    hide Places, Affordable, Returned, Outdone;
    assert t.nonces(a) !in Of(last.queue, a);
  }

  /** The account's queue has advanced. */
  lemma ReturnsBack(t: Terms, h0: Held, txs: seq<Tx>, last: Held, dirty: set<Addr>, q': Slots, back: Held, a: Addr,
                    o: nat, top: nat)
    requires Coming(t, h0, last, txs, dirty, a, o) && t.nonces(a) < o && h0.virtual == map[] && back.all <= last.all
    requires Places(h0.pending, h0.queue, h0.all, {}) && forall k: nat :: k in Of(h0.pending, a) <==> o <= k < top
    requires Advanced(Of(last.pending, a), Of(last.queue, a), t.nonces(a), Of(back.pending, a), q', t.nonces(a),
                      t.balances(a), t.gas, a in last.locals, t.accountQueue)
    requires Expected(t.nonces, back.virtual, a)
          == Reached(Clean(Of(last.queue, a), t.nonces(a), t.balances(a), t.gas), t.nonces(a))
    ensures Gap(t, h0, txs, back, a, o)
  {
    hide Places, Advanced, Affordable, Gapless, Returned, Outdone, Payable, Clean, Reached;
    var p, q, m, n, cost := Of(last.pending, a), Of(last.queue, a), Of(back.pending, a), t.nonces(a), t.balances(a);
    if n in q {
      NotBoth(last, a, o);
      var e := Started(p, q, o, m, q', n, cost, t.gas, a in last.locals, t.accountQueue);
      GapInFront(p, q, o, top, m, e, n, cost, t.gas);
      PartedAt(t, h0, txs, last, dirty, a, o, e);
      if e < o {
        NotKnown(last, a, e);
        assert Unknown(back.all, a, e);
      }
    } else {
      NotStarted(p, q, m, q', n, cost, t.gas, a in last.locals, t.accountQueue);
      assert n !in m;
      assert Gapless(m, n, cost, t.gas) by { NoFront(m, n, cost, t.gas); }
    }
  }

  lemma NoFront(m: Slots, n: nat, cost: nat, gas: nat)
    requires n !in m
    ensures Gapless(m, n, cost, gas)
  {
  }

  lemma NotBoth(h: Held, a: Addr, k: nat)
    requires Places(h.pending, h.queue, h.all, {})
    ensures !(k in Of(h.pending, a) && k in Of(h.queue, a))
  {
    assert Sole(h.pending, h.queue, a, k);
  }

  lemma NotKnown(h: Held, a: Addr, k: nat)
    requires Places(h.pending, h.queue, h.all, {}) && k !in Of(h.pending, a) && k !in Of(h.queue, a)
    ensures Unknown(h.all, a, k)
  {
    hide Places;
    forall tx | tx in h.all ensures !(tx.sender == a && tx.nonce == k) { Found(h.pending, h.queue, h.all, tx); }
  }

  /** Whether the transactions are parted shows where the run of those that have come back ends. */
  lemma PartedAt(t: Terms, h0: Held, txs: seq<Tx>, last: Held, dirty: set<Addr>, a: Addr, o: nat, e: nat)
    requires Coming(t, h0, last, txs, dirty, a, o) && Places(h0.pending, h0.queue, h0.all, {}) && t.nonces(a) < e
    requires (forall k: nat :: t.nonces(a) <= k < e ==> k in Of(last.queue, a)) && (e < o ==> e !in Of(last.queue, a))
             && t.nonces(a) < o
    ensures var m := Of(last.pending, a);
            Parted(t, h0.pending, h0.locals, txs, a, o) <==> e < o && o in m && Affordable(m[o], t.balances(a), t.gas)
  {
    hide Places, Affordable, Returned, Outdone;
    var m0, m, n := Of(h0.pending, a), Of(last.pending, a), t.nonces(a);
    assert n in Of(last.queue, a);
    assert o in m <==> Has(h0.pending, a, o);
    if e < o { assert !Returned(t, h0.locals, txs, a, e); }
    if exists k :: n < k < o && !Returned(t, h0.locals, txs, a, k) {
      var k :| n < k < o && !Returned(t, h0.locals, txs, a, k);
      assert k !in Of(last.queue, a);
    }
  }

  // ---------------------------------------------------------------- in the end

  /** A reset with room for all that comes back: the pending nonces of an account whose nonce has
      fallen are in order in the end if and only if its transactions are not parted. */
  lemma FallenReset(t: Terms, nonces: Addr -> nat, v0: map<Addr, nat>, h0: Held, txs: seq<Tx>, b: Batch, back: Held,
                    low: Held, mid: Held, h: Held, a: Addr)
    requires Unbroken(h0.pending, nonces, v0, a) && t.nonces(a) < nonces(a) && NoneStale(h0.queue, nonces)
    requires h0.virtual == map[] && Batched(t, h0, txs, false, b, back) && |h0.all| + |txs| <= t.globalSlots
    requires Places(h0.pending, h0.queue, h0.all, {}) && Places(h.pending, h.queue, h.all, {})
    requires Demotes(t, back, low) && Promoted(t, low, mid, h, low.queue.Keys)
    requires Steps(low.pending, low.virtual, h.pending, h.virtual, t.nonces, t.balances, t.gas)
    ensures Unbroken(h.pending, t.nonces, h.virtual, a) <==> !Parted(t, h0.pending, h0.locals, txs, a, nonces(a))
  {
    hide Batched, Demotes, Promoted, Steps, Places, Parted, Gapless, Payable, Unbroken, Demoted, Affordable, Advanced;
    var n, o, m := t.nonces(a), nonces(a), Of(back.pending, a);
    StartsAt(h0, nonces, v0, a);
    BackAt(t, h0, txs, b, back, a, o, Expected(nonces, v0, a));
    LowAt(t, back, low, a);
    StepsContiguous(low.pending, low.virtual, h.pending, h.virtual, t.nonces, t.balances, t.gas);
    if Parted(t, h0.pending, h0.locals, txs, a, o) {
      var e :| n < e < o && Unknown(back.all, a, e);
      assert o in Of(low.pending, a);
      SubsetSize(low.all, back.all);
      PromotedAt(t, low, mid, h, low.queue.Keys, a);
      StaysPending(t, low, mid, h, a, o);
      assert Unknown(h.all, a, e);
      IsBroken(t, h, a, e, o);
    }
  }

  lemma StartsAt(h0: Held, nonces: Addr -> nat, v0: map<Addr, nat>, a: Addr)
    requires Unbroken(h0.pending, nonces, v0, a) && NoneStale(h0.queue, nonces)
    requires Places(h0.pending, h0.queue, h0.all, {})
    ensures Starts(h0, a, nonces(a)) && forall k :: k in Of(h0.queue, a) ==> nonces(a) <= k
    ensures forall k: nat :: k in Of(h0.pending, a) <==> nonces(a) <= k < Expected(nonces, v0, a)
  {
    hide Places;
    ProperLists(h0.pending, h0.queue, h0.all, {});
    assert forall k: nat :: k in Of(h0.pending, a) <==> Has(h0.pending, a, k);
    assert forall k: nat :: k in Of(h0.queue, a) ==> Has(h0.queue, a, k);
  }

  /** What demotion leaves of the account. */
  lemma LowAt(t: Terms, back: Held, low: Held, a: Addr)
    requires Demotes(t, back, low)
    requires var m, n := Of(back.pending, a), t.nonces(a);
             if n in m then Affordable(m[n], t.balances(a), t.gas) else Expected(t.nonces, back.virtual, a) == n
    ensures var m, n := Of(back.pending, a), t.nonces(a);
            && (Unbroken(low.pending, t.nonces, low.virtual, a) <==> Gapless(m, n, t.balances(a), t.gas))
            && (forall k :: n in m && Payable(m, n, t.balances(a), t.gas, k) ==> k in Of(low.pending, a))
            && low.all <= back.all
  {
    hide Places, Above, Gapless, Payable, Unbroken, Affordable, Kept;
    var m, n := Of(back.pending, a), t.nonces(a);
    RaisedUnbroken(back.pending, back.virtual, low.pending, low.virtual, t.nonces, t.balances, t.gas, a);
    DemotedNone(n, t.balances(a), t.gas);
    assert Of(low.pending, a) == Demoted(m, n, t.balances(a), t.gas);
    FirstPayable(m, n, t.balances(a), t.gas);
    KeptIsPayable(m, n, t.balances(a), t.gas, n);
    forall k | n in m && Payable(m, n, t.balances(a), t.gas, k) ensures k in Of(low.pending, a) {
      KeptIsPayable(m, n, t.balances(a), t.gas, k);
    }
  }

  lemma StaysPending(t: Terms, h: Held, mid: Held, h': Held, a: Addr, k: nat)
    requires k in Of(h.pending, a) && Promoted(t, h, mid, h', h.queue.Keys) && |h.all| <= t.globalSlots
    ensures k in Of(h'.pending, a)
  {
    hide Promoted, Clean, ReadyEnd, Lowest;
    PromotedAt(t, h, mid, h', h.queue.Keys, a);
  }

  lemma IsBroken(t: Terms, h: Held, a: Addr, e: nat, o: nat)
    requires Places(h.pending, h.queue, h.all, {}) && Unknown(h.all, a, e) && o in Of(h.pending, a)
             && t.nonces(a) <= e < o
    ensures !Unbroken(h.pending, t.nonces, h.virtual, a)
  {
    hide Places;
    assert Has(h.pending, a, o);
    if Has(h.pending, a, e) {
      ProperLists(h.pending, h.queue, h.all, {});
      Found(h.pending, h.queue, h.all, h.pending[a][e]);
    }
  }

  /** A reset leaves the pending nonces of an account in order if the list has no gap that matters
      once transactions have come back, and nothing but the state's nonce is expected where nothing
      stays pending. */
  lemma GaplessReset(t: Terms, back: Held, low: Held, h: Held, a: Addr)
    requires Demotes(t, back, low)
    requires Steps(low.pending, low.virtual, h.pending, h.virtual, t.nonces, t.balances, t.gas)
    requires Gapless(Of(back.pending, a), t.nonces(a), t.balances(a), t.gas)
    requires a !in low.pending ==> Expected(t.nonces, back.virtual, a) == t.nonces(a)
    ensures Unbroken(h.pending, t.nonces, h.virtual, a)
  {
    hide Steps, Places, Above, Gapless, Unbroken, Demoted;
    RaisedUnbroken(back.pending, back.virtual, low.pending, low.virtual, t.nonces, t.balances, t.gas, a);
    StepsContiguous(low.pending, low.virtual, h.pending, h.virtual, t.nonces, t.balances, t.gas);
  }

  /** Where all that comes back has room, every account ends in order but those that are parted. */
  lemma ResetReturns(t: Terms, nonces: Addr -> nat, v0: map<Addr, nat>, h0: Held, txs: seq<Tx>, b: Batch, back: Held,
                     low: Held, mid: Held, h: Held)
    requires h0.virtual == map[] && Batched(t, h0, txs, false, b, back)
    requires Places(h0.pending, h0.queue, h0.all, {}) && Places(h.pending, h.queue, h.all, {})
    requires Demotes(t, back, low) && Promoted(t, low, mid, h, low.queue.Keys)
    requires Steps(low.pending, low.virtual, h.pending, h.virtual, t.nonces, t.balances, t.gas)
    requires |h0.all| + |txs| <= t.globalSlots ==>
               forall a :: Unbroken(h0.pending, nonces, v0, a) && nonces(a) <= t.nonces(a) ==>
                 Unbroken(h.pending, t.nonces, h.virtual, a)
    ensures forall a ::
              && Gapless(Of(back.pending, a), t.nonces(a), t.balances(a), t.gas)
              && (a !in low.pending ==> Expected(t.nonces, back.virtual, a) == t.nonces(a)) ==>
                Unbroken(h.pending, t.nonces, h.virtual, a)
    ensures |h0.all| + |txs| <= t.globalSlots && NoneStale(h0.queue, nonces) ==>
              forall a :: Unbroken(h0.pending, nonces, v0, a) ==>
                (Unbroken(h.pending, t.nonces, h.virtual, a) <==>
                 !Parted(t, h0.pending, h0.locals, txs, a, nonces(a)))
  {
    hide Batched, Demotes, Promoted, Steps, Places, Gapless, Unbroken, NoneStale, Of, Returned, Outdone, Affordable;
    forall a |
      && Gapless(Of(back.pending, a), t.nonces(a), t.balances(a), t.gas)
      && (a !in low.pending ==> Expected(t.nonces, back.virtual, a) == t.nonces(a))
      ensures Unbroken(h.pending, t.nonces, h.virtual, a)
    {
      GaplessReset(t, back, low, h, a);
    }
    if |h0.all| + |txs| <= t.globalSlots && NoneStale(h0.queue, nonces) {
      forall a | Unbroken(h0.pending, nonces, v0, a)
        ensures Unbroken(h.pending, t.nonces, h.virtual, a) <==>
                !Parted(t, h0.pending, h0.locals, txs, a, nonces(a))
      {
        if t.nonces(a) < nonces(a) { FallenReset(t, nonces, v0, h0, txs, b, back, low, mid, h, a); }
      }
    }
  }
}
