/**
 What the operations of the pool do as a whole: the admission of one transaction, the promotion of
 some accounts, the two after each other for a batch, and a reset to another state.
 */
module PoolRuns {
  import opened Common
  import opened TxSortedMap
  import opened TxList
  import opened TxPriced
  import opened PoolPlaces
  import opened PoolNonces
  import opened PoolSteps

  /** Why `validateTx` refuses a transaction. */
  datatype Refusal =
    | OversizedData | GasLimit | InvalidSender | BelowGasPrice
    | NonceTooLow | InsufficientFunds | OutOfGas | IntrinsicGas

  datatype PoolError = Accepted | Known | Invalid(why: Refusal) | Underpriced | ReplaceUnderpriced

  const MAX_TX_SIZE: nat := 32 * 1024

  /** What the pool has, and the nonces that it tracks. */
  datatype Held = Held(pending: Lists, queue: Lists, all: set<Tx>, virtual: map<Addr, nat>, locals: set<Addr>)

  /** The state of the head, the settings of the pool, and what it computes of a transaction: its size,
      whether its signature gives the sender, and its intrinsic gas, unless that does not fit. */
  datatype Terms = Terms(nonces: Addr -> nat, balances: Addr -> nat, gas: nat, price: nat, size: Tx -> nat,
                         signed: Tx -> bool, intrinsic: Tx -> Option<nat>, bump: nat, accountSlots: nat,
                         accountQueue: nat, globalSlots: nat, globalQueue: nat) {
    function Capacity(): nat {
      globalSlots + globalQueue
    }
  }

  /** The checks of `validateTx`, in order. */
  function Refused(t: Terms, locals: set<Addr>, tx: Tx, local: bool): Option<Refusal> {
    if t.size(tx) > MAX_TX_SIZE then Some(OversizedData)
    else if t.gas < tx.gas then Some(GasLimit)
    else if !t.signed(tx) then Some(InvalidSender)
    else if !local && tx.sender !in locals && t.price > tx.price then Some(BelowGasPrice)
    else if t.nonces(tx.sender) > tx.nonce then Some(NonceTooLow)
    else if t.balances(tx.sender) < tx.Cost() then Some(InsufficientFunds)
    else if t.intrinsic(tx).None? then Some(OutOfGas)
    else if tx.gas < t.intrinsic(tx).value then Some(IntrinsicGas)
    else None
  }

  predicate Passes(t: Terms, locals: set<Addr>, tx: Tx, local: bool) {
    Refused(t, locals, tx, local).None?
  }

  /** A transaction that is no dearer than everything in a full pool. */
  ghost predicate TooCheap(t: Terms, all: set<Tx>, locals: set<Addr>, tx: Tx, local: bool) {
    && |all| >= t.Capacity() && !local && tx.sender !in locals
    && all != {} && forall x :: x in all ==> tx.price <= x.price
  }

  /** Where a new transaction goes: into a pending list or a queue in place of one that it outbids,
      or into the queue. */
  ghost function Joined(h: Held, tx: Tx, bump: nat): Held {
    if Has(h.pending, tx.sender, tx.nonce) then
      var prior := h.pending[tx.sender][tx.nonce];
      if Outbids(prior, tx, bump) then h.(pending := Put(h.pending, tx), all := h.all - {prior} + {tx}) else h
    else if Has(h.queue, tx.sender, tx.nonce) then
      var prior := h.queue[tx.sender][tx.nonce];
      if Outbids(prior, tx, bump) then h.(queue := Put(h.queue, tx), all := h.all - {prior} + {tx}) else h
    else h.(queue := Put(h.queue, tx), all := h.all + {tx})
  }

  ghost predicate Joins(h: Held, h': Held, tx: Tx, r: PoolError, replaced: bool, bump: nat) {
    && (r == Accepted || r == ReplaceUnderpriced)
    && h'.(locals := h.locals) == Joined(h, tx, bump)
    && (r == Accepted <==> tx in h'.all)
    && (r == Accepted ==> (replaced <==> Has(h.pending, tx.sender, tx.nonce) || Has(h.queue, tx.sender, tx.nonce)))
  }

  /** What `add` answers. */
  ghost predicate Answers(t: Terms, h: Held, tx: Tx, local: bool, r: PoolError, h': Held) {
    && (r == Known <==> tx in h.all)
    && (r.Invalid? <==> tx !in h.all && !Passes(t, h.locals, tx, local))
    && (r.Invalid? ==> Refused(t, h.locals, tx, local) == Some(r.why))
    && (r == Underpriced <==> tx !in h.all && Passes(t, h.locals, tx, local) && TooCheap(t, h.all, h.locals, tx, local))
    && (r == Known || r.Invalid? || r == Underpriced ==> h' == h)
    && (r == Accepted || r == Known <==> tx in h'.all)
    && (r == ReplaceUnderpriced ==> exists x :: x in h'.all && SameNonce(x, tx) && !Outbids(x, tx, t.bump))
  }

  /** What comes and what goes: local transactions go only when they are outbid, and so do all
      others unless the pool is full. */
  ghost predicate Spares(t: Terms, h: Held, tx: Tx, r: PoolError, replaced: bool, h': Held) {
    && (forall x :: x in h'.all ==> x in h.all || x == tx)
    && forall x :: x in h.all && x !in h'.all ==>
         || (|h.all| >= t.Capacity() && x.sender !in h.locals)
         || (r == Accepted && replaced && SameNonce(x, tx) && Outbids(x, tx, t.bump))
  }

  /** A pool within its capacity stays within it, unless it is full of local transactions. */
  ghost predicate Fits(t: Terms, h: Held, tx: Tx, h': Held) {
    |h.all| <= t.Capacity() ==> |h'.all| <= t.Capacity() || forall x :: x in h'.all && x != tx ==> x.sender in h.locals
  }

  /** What `add` does. In a pool that is not full, a new transaction that passes the checks joins;
      in a full one others make room first. */
  ghost predicate Admitted(t: Terms, h: Held, tx: Tx, local: bool, r: PoolError, replaced: bool, h': Held) {
    && Answers(t, h, tx, local, r, h') && Spares(t, h, tx, r, replaced, h') && Fits(t, h, tx, h')
    && ((r == Accepted || r == ReplaceUnderpriced) && |h.all| < t.Capacity() ==> Joins(h, h', tx, r, replaced, t.bump))
    && h'.locals == (if r == Accepted && local && In(h'.queue, tx) then h.locals + {tx.sender} else h.locals)
    && Steps(h.pending, h.virtual, h'.pending, h'.virtual, t.nonces, t.balances, t.gas)
  }

  /** The limits: pending lists are cut to one level, queues are swept, local accounts keep what
      they have. Nothing happens within the limits, and afterwards they hold, as far as can be. */
  ghost predicate Limited(t: Terms, h: Held, h': Held) {
    && h'.locals == h.locals && h'.all <= h.all
    && Trimmed(h.pending, h'.pending, h.pending.Keys - h.locals)
    && (exists level: nat :: level >= t.accountSlots && CutTo(h.pending, h'.pending, h.locals, level))
    && (Total(h.pending) <= t.globalSlots ==> h'.pending == h.pending && h'.virtual == h.virtual)
    && (Total(h'.pending) <= t.globalSlots || forall a :: a !in h.locals ==> |Of(h'.pending, a)| <= t.accountSlots)
    && Swept(h.queue, h'.queue, h.locals, {}, true) && OneCut(h.queue, h'.queue)
    && (Total(h.queue) <= t.globalQueue ==> h'.queue == h.queue)
    && (Total(h'.queue) <= t.globalQueue || forall a :: a in h'.queue ==> a in h.locals)
  }

  /** What `promoteExecutables` does: lists advance, then the limits are applied. */
  ghost predicate Promoted(t: Terms, h: Held, mid: Held, h': Held, accounts: set<Addr>) {
    && AllAdvanced(h.pending, h.queue, h.virtual, mid.pending, mid.queue, mid.virtual, accounts, t.nonces, t.balances,
                   t.gas, h.locals, t.accountQueue)
    && mid.locals == h.locals && mid.all <= h.all && Places(mid.pending, mid.queue, mid.all, {})
    && Limited(t, mid, h')
  }

  /** The accounts that have got something new. */
  ghost function Dirty(txs: seq<Tx>, rs: seq<PoolError>, replaced: seq<bool>): set<Addr>
    requires |rs| == |replaced| <= |txs|
  {
    set i | 0 <= i < |rs| && rs[i] == Accepted && !replaced[i] :: txs[i].sender
  }

  /** What `addTxs` does: one admission after the other, and then a promotion if there is reason. */
  datatype Batch = Batch(rs: seq<PoolError>, replaced: seq<bool>, seen: seq<Held>, mid: Held)

  ghost predicate Chained(t: Terms, h: Held, txs: seq<Tx>, local: bool, b: Batch) {
    && |b.rs| == |b.replaced| <= |txs| && |b.seen| == |b.rs| + 1 && b.seen[0] == h
    && forall i :: 0 <= i < |b.rs| ==> Admitted(t, b.seen[i], txs[i], local, b.rs[i], b.replaced[i], b.seen[i + 1])
  }

  ghost predicate Batched(t: Terms, h: Held, txs: seq<Tx>, local: bool, b: Batch, h': Held) {
    && Chained(t, h, txs, local, b) && |b.rs| == |txs|
    && var last, dirty := b.seen[|txs|], Dirty(txs, b.rs, b.replaced);
       if dirty == {} then h' == last else Promoted(t, last, b.mid, h', dirty)
  }

  lemma NothingBatched(t: Terms, h: Held, txs: seq<Tx>, local: bool)
    ensures Chained(t, h, txs, local, Batch([], [], [h], h))
    ensures ChainEnd(Batch([], [], [h], h)) == h && DirtyOf(txs, Batch([], [], [h], h)) == {}
  {
  }

  /** Where an unfinished batch has come to. */
  ghost function ChainEnd(b: Batch): Held {
    if b.seen == [] then b.mid else b.seen[|b.seen| - 1]
  }

  ghost function DirtyOf(txs: seq<Tx>, b: Batch): set<Addr> {
    if |b.rs| == |b.replaced| <= |txs| then Dirty(txs, b.rs, b.replaced) else {}
  }

  ghost function Extended(b: Batch, r: PoolError, replaced: bool, h: Held): Batch {
    Batch(b.rs + [r], b.replaced + [replaced], b.seen + [h], h)
  }

  lemma OneBatched(t: Terms, h: Held, txs: seq<Tx>, local: bool, b: Batch, r: PoolError, replaced: bool, h': Held)
    requires Chained(t, h, txs, local, b) && |b.rs| < |txs|
    requires Admitted(t, ChainEnd(b), txs[|b.rs|], local, r, replaced, h')
    ensures Chained(t, h, txs, local, Extended(b, r, replaced, h')) && ChainEnd(Extended(b, r, replaced, h')) == h'
    ensures DirtyOf(txs, Extended(b, r, replaced, h'))
         == DirtyOf(txs, b) + (if r == Accepted && !replaced then {txs[|b.rs|].sender} else {})
  {
    hide Admitted;
    var n, rs, rep := |b.rs|, b.rs + [r], b.replaced + [replaced];
    forall a ensures a in Dirty(txs, rs, rep) <==>
      a in Dirty(txs, b.rs, b.replaced) || (r == Accepted && !replaced && a == txs[n].sender) {
      if a in Dirty(txs, b.rs, b.replaced) {
        var i :| 0 <= i < n && b.rs[i] == Accepted && !b.replaced[i] && txs[i].sender == a;
        assert rs[i] == Accepted && !rep[i];
      }
      if r == Accepted && !replaced && a == txs[n].sender { assert rs[n] == Accepted && !rep[n]; }
    }
  }

  lemma Ended(t: Terms, h: Held, txs: seq<Tx>, local: bool, b: Batch, mid: Held, h': Held)
    requires Chained(t, h, txs, local, b) && |b.rs| == |txs|
    requires if DirtyOf(txs, b) == {} then h' == ChainEnd(b) else Promoted(t, ChainEnd(b), mid, h', DirtyOf(txs, b))
    ensures Batched(t, h, txs, local, b.(mid := mid), h')
  {
    hide Admitted, Promoted;
    var b' := b.(mid := mid);
    assert Chained(t, h, txs, local, b');
  }

  lemma NotAdmitted(t: Terms, h: Held, tx: Tx, local: bool, r: PoolError)
    requires r == Known || r.Invalid? || r == Underpriced
    requires r == Known <==> tx in h.all
    requires r.Invalid? <==> tx !in h.all && !Passes(t, h.locals, tx, local)
    requires r.Invalid? ==> Refused(t, h.locals, tx, local) == Some(r.why)
    requires r == Underpriced ==> TooCheap(t, h.all, h.locals, tx, local)
    ensures Admitted(t, h, tx, local, r, false, h)
  {
    NoSteps(h.pending, h.virtual, t.nonces, t.balances, t.gas);
  }

  /** Room has been made by some of the cheapest transactions that are not local, if need be. */
  ghost predicate RoomMade(t: Terms, h: Held, h': Held, drop: seq<Tx>) {
    && h'.all == h.all - SetOf(drop) && h'.locals == h.locals && Cheapest(drop, h.all, h.locals)
    && (|h.all| < t.Capacity() ==> h' == h && drop == [])
    && (|h.all| <= t.Capacity() ==> |h'.all| < t.Capacity() || forall x :: x in h'.all ==> x.sender in h.locals)
    && Steps(h.pending, h.virtual, h'.pending, h'.virtual, t.nonces, t.balances, t.gas)
  }

  /** The transaction has joined, or does not outbid the one that has its nonce. */
  ghost predicate Inserted(t: Terms, h: Held, h': Held, tx: Tx, r: PoolError, replaced: bool) {
    && Joins(h, h', tx, r, replaced, t.bump) && h'.locals == h.locals && |h'.all| <= |h.all| + 1
    && (forall x :: x in h'.all ==> x in h.all || x == tx)
    && (forall x :: x in h.all && x !in h'.all ==>
          r == Accepted && replaced && SameNonce(x, tx) && Outbids(x, tx, t.bump))
    && (r == ReplaceUnderpriced ==> exists x :: x in h'.all && SameNonce(x, tx) && !Outbids(x, tx, t.bump))
    && Steps(h.pending, h.virtual, h'.pending, h'.virtual, t.nonces, t.balances, t.gas)
  }

  /** The outcome of a replacement in a pending list. */
  lemma InsertedPending(t: Terms, h: Held, h': Held, tx: Tx, ok: bool)
    requires Places(h.pending, h.queue, h.all, {}) && tx !in h.all && Has(h.pending, tx.sender, tx.nonce)
    requires ok == Outbids(h.pending[tx.sender][tx.nonce], tx, t.bump)
    requires h' == if ok then h.(pending := Put(h.pending, tx), all := h.all - {h.pending[tx.sender][tx.nonce]} + {tx})
             else h
    requires Steps(h.pending, h.virtual, h'.pending, h'.virtual, t.nonces, t.balances, t.gas)
    ensures Inserted(t, h, h', tx, if ok then Accepted else ReplaceUnderpriced, ok)
  {
    hide Steps, Outbids, Places, Put;
    var prior := h.pending[tx.sender][tx.nonce];
    PriorKnown(h.pending, h.queue, h.all, tx);
    assert prior in h.all && SameNonce(prior, tx);
    assert |h.all - {prior} + {tx}| <= |h.all| + 1;
  }

  /** The outcome of queueing. */
  lemma InsertedQueued(t: Terms, h: Held, h': Held, tx: Tx, ok: bool)
    requires Places(h.pending, h.queue, h.all, {}) && tx !in h.all && !Has(h.pending, tx.sender, tx.nonce)
    requires ok <==> (Has(h.queue, tx.sender, tx.nonce) ==> Outbids(h.queue[tx.sender][tx.nonce], tx, t.bump))
    requires h' == if !ok then h else h.(queue := Put(h.queue, tx),
               all := (if Has(h.queue, tx.sender, tx.nonce) then h.all - {h.queue[tx.sender][tx.nonce]} else h.all) +
                 {tx})
    ensures Inserted(t, h, h', tx, if ok then Accepted else ReplaceUnderpriced, ok && Has(h.queue, tx.sender, tx.nonce))
  {
    hide Steps, Outbids, Places, Put, Joined;
    NoSteps(h.pending, h.virtual, t.nonces, t.balances, t.gas);
    PriorKnown(h.pending, h.queue, h.all, tx);
    JoinedQueued(h, tx, t.bump);
    if ok { OneMoreThan(h.all, h'.all, tx); }
    if Has(h.queue, tx.sender, tx.nonce) {
      var prior := h.queue[tx.sender][tx.nonce];
      assert prior in h.all && SameNonce(prior, tx);
    }
  }

  lemma JoinedQueued(h: Held, tx: Tx, bump: nat)
    requires !Has(h.pending, tx.sender, tx.nonce)
    ensures Has(h.queue, tx.sender, tx.nonce) ==>
              var prior := h.queue[tx.sender][tx.nonce];
              Joined(h, tx, bump)
              == if Outbids(prior, tx, bump) then h.(queue := Put(h.queue, tx), all := h.all - {prior} + {tx}) else h
    ensures !Has(h.queue, tx.sender, tx.nonce) ==>
              Joined(h, tx, bump) == h.(queue := Put(h.queue, tx), all := h.all + {tx})
  {
  }

  lemma NoRoomNeeded(t: Terms, h: Held, tx: Tx, local: bool)
    requires |h.all| < t.Capacity()
    ensures RoomMade(t, h, h, []) && !TooCheap(t, h.all, h.locals, tx, local)
  {
    NoneDropped(h.all, h.locals);
    NoSteps(h.pending, h.virtual, t.nonces, t.balances, t.gas);
  }

  lemma RoomIsMade(t: Terms, h: Held, h': Held, drop: seq<Tx>)
    requires h'.all == h.all - SetOf(drop) && h'.locals == h.locals && Cheapest(drop, h.all, h.locals)
    requires |h.all| >= t.Capacity()
    requires |h.all| <= t.Capacity() ==> |h'.all| < t.Capacity() || forall x :: x in h'.all ==> x.sender in h.locals
    requires Steps(h.pending, h.virtual, h'.pending, h'.virtual, t.nonces, t.balances, t.gas)
    ensures RoomMade(t, h, h', drop)
  {
  }

  lemma RoomFacts(t: Terms, h: Held, h': Held, drop: seq<Tx>, tx: Tx, local: bool)
    requires RoomMade(t, h, h', drop) && tx !in h.all && Passes(t, h.locals, tx, local)
    ensures tx !in h'.all && t.nonces(tx.sender) <= tx.nonce && Affordable(tx, t.balances(tx.sender), t.gas)
  {
  }

  /** Room is made, the transaction joins, and its account may become local. */
  lemma IsAdmitted(t: Terms, h0: Held, h1: Held, h2: Held, h3: Held, tx: Tx, local: bool, r: PoolError, replaced: bool,
                   drop: seq<Tx>)
    requires tx !in h0.all && Passes(t, h0.locals, tx, local) && !TooCheap(t, h0.all, h0.locals, tx, local)
    requires RoomMade(t, h0, h1, drop) && Inserted(t, h1, h2, tx, r, replaced)
    requires h3 == h2.(locals := if r == Accepted && local && In(h2.queue, tx) then h2.locals + {tx.sender}
                       else h2.locals)
    ensures Admitted(t, h0, tx, local, r, replaced, h3)
    ensures Cheapest(drop, h0.all, h0.locals) && (|h0.all| < t.Capacity() ==> drop == [])
    ensures forall x :: x in h0.all && x !in h3.all ==>
              x in drop || (r == Accepted && replaced && SameNonce(x, tx) && Outbids(x, tx, t.bump))
    ensures |h1.all| < t.Capacity() || (forall x :: x in h1.all ==> x.sender in h0.locals) ==>
              |h3.all| <= t.Capacity() || forall x :: x in h3.all && x != tx ==> x.sender in h0.locals
  {
    hide Steps, Refused, TooCheap, Joins, Outbids, In, Has, Before, Spares, Fits, Cheapest;
    MoreSteps(h0.pending, h0.virtual, h1.pending, h1.virtual, h2.pending, h2.virtual, t.nonces, t.balances, t.gas);
    JoinsFacts(h1, h2, tx, r, replaced, t.bump);
    IsSpared(t, h0, h1, h3, tx, r, replaced, drop);
    IsFit(t, h0, h1, h3, tx);
    assert h3.(locals := h0.locals) == h2.(locals := h1.locals);
    if |h0.all| < t.Capacity() { JoinsToo(h0, h2, h3, tx, r, replaced, t.bump); }
  }

  lemma JoinsFacts(h: Held, h': Held, tx: Tx, r: PoolError, replaced: bool, bump: nat)
    requires Joins(h, h', tx, r, replaced, bump)
    ensures (r == Accepted || r == ReplaceUnderpriced) && (r == Accepted <==> tx in h'.all)
  {
  }

  lemma JoinsToo(h: Held, h2: Held, h3: Held, tx: Tx, r: PoolError, replaced: bool, bump: nat)
    requires Joins(h, h2, tx, r, replaced, bump) && h3 == h2.(locals := h3.locals)
    ensures Joins(h, h3, tx, r, replaced, bump)
  {
  }

  lemma IsSpared(t: Terms, h0: Held, h1: Held, h': Held, tx: Tx, r: PoolError, replaced: bool, drop: seq<Tx>)
    requires h1.all == h0.all - SetOf(drop) && Cheapest(drop, h0.all, h0.locals)
             && (|h0.all| < t.Capacity() ==> drop == [])
    requires forall x :: x in h'.all ==> x in h1.all || x == tx
    requires forall x :: x in h1.all && x !in h'.all ==>
               r == Accepted && replaced && SameNonce(x, tx) && Outbids(x, tx, t.bump)
    ensures Spares(t, h0, tx, r, replaced, h')
    ensures forall x :: x in h0.all && x !in h'.all ==>
              x in drop || (r == Accepted && replaced && SameNonce(x, tx) && Outbids(x, tx, t.bump))
  {
    hide Outbids, Before;
    assert forall x :: x in h0.all && x !in h1.all ==> x in drop;
    assert drop != [] ==> |h0.all| >= t.Capacity();
  }

  lemma IsFit(t: Terms, h0: Held, h1: Held, h': Held, tx: Tx)
    requires |h0.all| <= t.Capacity() ==> |h1.all| < t.Capacity() || forall x :: x in h1.all ==> x.sender in h0.locals
    requires |h'.all| <= |h1.all| + 1 && forall x :: x in h'.all ==> x in h1.all || x == tx
    ensures Fits(t, h0, tx, h')
  {
  }

  /** A transaction of a batch has been accepted that outbids another. */
  ghost predicate Overbid(x: Tx, txs: seq<Tx>, rs: seq<PoolError>, bump: nat) {
    exists i :: 0 <= i < |rs| && i < |txs| && rs[i] == Accepted && SameNonce(x, txs[i]) && Outbids(x, txs[i], bump)
  }

  /** Local accounts lose only what is outbid. */
  lemma LocalsKept(t: Terms, h: Held, tx: Tx, local: bool, r: PoolError, replaced: bool, h': Held)
    requires Admitted(t, h, tx, local, r, replaced, h')
    ensures forall x :: x in h.all && x !in h'.all && x.sender in h.locals ==>
              r == Accepted && SameNonce(x, tx) && Outbids(x, tx, t.bump)
    ensures h.locals <= h'.locals && (!local ==> h'.locals == h.locals)
  {
  }

  lemma LocalsOverbid(t: Terms, h0: Held, h: Held, txs: seq<Tx>, local: bool, rs: seq<PoolError>, r: PoolError,
                      replaced: bool, h': Held)
    requires |rs| < |txs| && Admitted(t, h, txs[|rs|], local, r, replaced, h') && h0.locals <= h.locals
    requires forall x :: x in h0.all && x !in h.all && x.sender in h0.locals ==> Overbid(x, txs, rs, t.bump)
    ensures forall x :: x in h0.all && x !in h'.all && x.sender in h0.locals ==> Overbid(x, txs, rs + [r], t.bump)
    ensures h0.locals <= h'.locals && (!local ==> h'.locals == h.locals)
  {
    hide Admitted, Outbids;
    LocalsKept(t, h, txs[|rs|], local, r, replaced, h');
    forall x | x in h0.all && x !in h'.all && x.sender in h0.locals ensures Overbid(x, txs, rs + [r], t.bump) {
      if x in h.all {
        assert (rs + [r])[|rs|] == Accepted && SameNonce(x, txs[|rs|]);
      } else {
        var i :| 0 <= i < |rs| && i < |txs| && rs[i] == Accepted && SameNonce(x, txs[i]) && Outbids(x, txs[i], t.bump);
        assert (rs + [r])[i] == Accepted && SameNonce(x, txs[i]);
      }
    }
  }

  /** A pool that may take so many more, or has no local accounts, stays within its capacity. */
  ghost predicate Calm(t: Terms, h: Held, more: nat, local: bool) {
    || |h.all| + more <= t.Capacity() + 1
    || (0 < t.Capacity() && |h.all| <= t.Capacity() && h.locals == {} && !local)
  }

  lemma StaysCalm(t: Terms, h: Held, more: nat, tx: Tx, local: bool, r: PoolError, replaced: bool, h': Held)
    requires Admitted(t, h, tx, local, r, replaced, h') && Calm(t, h, more, local) && more > 0
    ensures Calm(t, h', more - 1, local) && |h.all| <= t.Capacity()
  {
    hide Answers, Joins, Steps, In;
    OneMoreThan(h.all, h'.all, tx);
    if h.locals == {} && !local && |h'.all| > t.Capacity() && |h.all| <= t.Capacity() {
      SubsetSize(h'.all, {tx});
    }
  }

  lemma AdmittedSteps(t: Terms, h0: Held, h: Held, tx: Tx, local: bool, r: PoolError, replaced: bool, h': Held)
    requires Admitted(t, h, tx, local, r, replaced, h')
    requires Steps(h0.pending, h0.virtual, h.pending, h.virtual, t.nonces, t.balances, t.gas)
    ensures Steps(h0.pending, h0.virtual, h'.pending, h'.virtual, t.nonces, t.balances, t.gas)
  {
    MoreSteps(h0.pending, h0.virtual, h.pending, h.virtual, h'.pending, h'.virtual, t.nonces, t.balances, t.gas);
  }

  lemma OffendersOnly(p: Lists, p': Lists, offenders: set<Addr>, locals: set<Addr>)
    requires Trimmed(p, p', offenders) && forall a :: a in offenders ==> a !in locals && |Of(p, a)| > 0
    ensures Trimmed(p, p', p.Keys - locals)
  {
    TrimmedMore(p, p', offenders, p.Keys - locals);
  }

  // ---------------------------------------------------------------- sizes

  ghost function AllIn(l: Lists): set<Tx> {
    set a, n | a in l && n in l[a] :: l[a][n]
  }

  lemma {:induction false} ValuesSize(m: Slots)
    requires Keyed(m)
    ensures |Values(m)| == |m|
    decreases |m|
  {
    if m != map[] {
      var n :| n in m;
      var rest := m - {n};
      assert m.Keys == rest.Keys + {n};
      ValuesSize(rest);
      assert m[n] !in Values(rest);
      assert Values(m) == Values(rest) + {m[n]} by {
        forall x ensures x in Values(m) <==> x in Values(rest) + {m[n]} {
          if x in Values(m) {
            var k :| k in m && m[k] == x;
            if k != n { assert k in rest && rest[k] == x; }
          }
          if x in Values(rest) {
            var k :| k in rest && rest[k] == x;
            assert k in m && m[k] == x;
          }
        }
      }
    }
  }

  ghost predicate ProperOnly(l: Lists) {
    forall a :: a in l ==> Keyed(l[a]) && forall n :: n in l[a] ==> l[a][n].sender == a
  }

  lemma {:induction false} AllInSize(l: Lists)
    requires ProperOnly(l)
    ensures |AllIn(l)| == Total(l)
    decreases |l|
  {
    hide Total, Keyed, Values;
    if l == map[] {
      TotalNone();
      assert AllIn(l) == {};
    } else {
      var a := TotalPick(l);
      AllInSize(l - {a});
      ValuesSize(l[a]);
      AllInSplit(l, a);
    }
  }

  lemma AllInSplit(l: Lists, a: Addr)
    requires ProperOnly(l) && a in l
    ensures AllIn(l) == AllIn(l - {a}) + Values(l[a]) && AllIn(l - {a}) !! Values(l[a])
  {
    hide Keyed;
    var rest := l - {a};
    forall x ensures x in AllIn(l) <==> x in AllIn(rest) || x in Values(l[a]) {
      if x in AllIn(l) {
        var b, n :| b in l && n in l[b] && l[b][n] == x;
        if b != a { assert b in rest && n in rest[b]; }
      }
      if x in AllIn(rest) {
        var b, n :| b in rest && n in rest[b] && rest[b][n] == x;
        assert b in l && n in l[b];
      }
      if x in Values(l[a]) {
        var n :| n in l[a] && l[a][n] == x;
        assert a in l && n in l[a];
      }
    }
  }

  /** No more is pending than is known. */
  lemma TotalBound(p: Lists, q: Lists, all: set<Tx>)
    requires Places(p, q, all, {})
    ensures Total(p) <= |all|
  {
    hide Total, Places;
    ProperLists(p, q, all, {});
    AllInSize(p);
    forall x | x in AllIn(p) ensures x in all {
      var a, n :| a in p && n in p[a] && p[a][n] == x;
      Found(p, q, all, x);
    }
    assert all == AllIn(p) + (all - AllIn(p));
  }

  // ---------------------------------------------------------------- reset

  /** What demotion does: only what is too old or cannot be paid for is gone, pending lists are cut
      back to what can be executed, and the nonce after each is expected. */
  ghost predicate Demotes(t: Terms, h: Held, h': Held) {
    && AllDemoted(h.pending, h'.pending, h'.pending.Keys + h.pending.Keys, t.nonces, t.balances, t.gas)
    && JustlyLost(h.all, h'.all, t.nonces, t.balances, t.gas) && h'.locals == h.locals
    && Places(h'.pending, h'.queue, h'.all, {}) && NoEmpty(h'.pending)
    && h'.virtual.Keys == h.virtual.Keys + h'.pending.Keys
    && forall a :: a in h'.virtual ==> h'.virtual[a] == if a in h'.pending then Above(h'.pending[a]) else h.virtual[a]
  }

  /** An account after a reset: in order, or with nothing pending and a passed nonce expected. */
  ghost predicate Settles(p: Lists, v: map<Addr, nat>, nonces: Addr -> nat, a: Addr, ok: bool) {
    if ok then Unbroken(p, nonces, v, a) else Of(p, a) == map[] && Expected(nonces, v, a) < nonces(a)
  }

  lemma StartsSolid(p: Lists, nonces: Addr -> nat, v: map<Addr, nat>, n: nat, cost: nat, gas: nat, a: Addr)
    requires Unbroken(p, nonces, v, a) && nonces(a) <= n
    ensures Solid(Of(p, a), n, None, cost, gas)
    ensures n == nonces(a) ==> Below(Of(p, a), n) == map[]
  {
    forall k, j: nat | k in Of(p, a) && n <= j < k ensures j in Of(p, a) {
      assert Has(p, a, k);
      assert Has(p, a, j);
    }
    assert forall k: nat :: k in Of(p, a) <==> Has(p, a, k);
  }

  /** Demotion of a list without gaps leaves exactly what is expected, unless a passed nonce is. */
  lemma SolidDemoted(m: Slots, n: nat, v: Option<nat>, cost: nat, gas: nat)
    requires Solid(m, n, v, cost, gas)
    ensures var d := Demoted(m, n, cost, gas);
            var v' := if d != map[] then Some(Above(d)) else v;
            && Solid(d, n, v', cost, gas) && Below(d, n) == map[] && (Sunk(n, v') <==> Sunk(n, v))
            && (!Sunk(n, v) ==> Whole(d, n, v'))
  {
    hide Above, Kept;
    var d := Demoted(m, n, cost, gas);
    var v' := if d != map[] then Some(Above(d)) else v;
    assert Gapless(m, n, cost, gas);
    DemotedIsUnbroken(m, n, cost, gas);
    forall k: nat ensures k in d ==> Payable(m, n, cost, gas, k) && d[k] == m[k] {
      KeptIsPayable(m, n, cost, gas, k);
      KeptPart(m, n, cost, gas, k);
    }
    KeptIsPayable(m, n, cost, gas, n);
    FirstPayable(m, n, cost, gas);
    AboveTight(d);
  }

  lemma KeptPart(m: Slots, n: nat, cost: nat, gas: nat, k: nat)
    ensures k in Kept(From(m, n), true, cost, gas) ==> k in m && Kept(From(m, n), true, cost, gas)[k] == m[k]
  {
  }

  /** An account through a reset: `m0` pending before, `m1` after reinjection, demoted, and promoted
      to `m3`. What is pending in the end reaches from the state's nonce to the one expected next if
      reinjection has left the nonces that the state has passed; otherwise nothing is pending. */
  lemma AccountReset(m0: Slots, m1: Slots, v1: Option<nat>, m3: Slots, v3: Option<nat>, n: nat, cost: nat, gas: nat)
    requires Solid(m0, n, None, cost, gas) && Step(m0, None, m1, v1, n, cost, gas)
    requires var m2 := Demoted(m1, n, cost, gas);
             Step(m2, if m2 != map[] then Some(Above(m2)) else v1, m3, v3, n, cost, gas)
    ensures if Below(m1, n) == Below(m0, n) then Whole(m3, n, v3) else m3 == map[] && Next(n, v3) < n
    ensures Below(m0, n) == map[] ==> Below(m1, n) == Below(m0, n)
  {
    hide Demoted, Above;
    SolidDemoted(m1, n, v1, cost, gas);
    if Sunk(n, v1) {
      assert m3 == map[] by {
        assert Sunk(n, v3);
        assert forall k :: k in m3 ==> k in Below(m3, n);
      }
    }
  }

  lemma ResetSteps(t: Terms, nonces: Addr -> nat, v0: map<Addr, nat>, h0: Held, back: Held, low: Held, h: Held, a: Addr)
    requires Unbroken(h0.pending, nonces, v0, a) && nonces(a) <= t.nonces(a) && h0.virtual == map[]
    requires Steps(h0.pending, h0.virtual, back.pending, back.virtual, t.nonces, t.balances, t.gas)
    requires Demotes(t, back, low)
    requires Steps(low.pending, low.virtual, h.pending, h.virtual, t.nonces, t.balances, t.gas)
    ensures var n := t.nonces(a);
            && Settles(h.pending, h.virtual, t.nonces, a, Below(Of(back.pending, a), n) == Below(Of(h0.pending, a), n))
            && (n == nonces(a) ==> Unbroken(h.pending, t.nonces, h.virtual, a))
  {
    hide Step, Whole, Solid, Unbroken, Demoted, Above, JustlyLost, Places, Below;
    var n := t.nonces(a);
    StartsSolid(h0.pending, nonces, v0, n, t.balances(a), t.gas, a);
    assert StepAt(h0.pending, h0.virtual, back.pending, back.virtual, t.nonces, t.balances, t.gas, a);
    assert StepAt(low.pending, low.virtual, h.pending, h.virtual, t.nonces, t.balances, t.gas, a);
    DemotedNone(n, t.balances(a), t.gas);
    assert Of(low.pending, a) == Demoted(Of(back.pending, a), n, t.balances(a), t.gas);
    WholeIsUnbroken(h.pending, t.nonces, h.virtual, a);
    AccountReset(Of(h0.pending, a), Of(back.pending, a), Track(back.virtual, a), Of(h.pending, a), Track(h.virtual, a),
                 n, t.balances(a), t.gas);
  }

  // ---------------------------------------------------------------- with room to spare

  /** The nonces that the state has passed are the same in all pending lists. */
  ghost predicate PastKept(p: Lists, p': Lists, nonces: Addr -> nat) {
    forall a {:trigger Of(p', a)} :: Below(Of(p', a), nonces(a)) == Below(Of(p, a), nonces(a))
  }

  lemma JoinsPast(t: Terms, h: Held, tx: Tx)
    requires t.nonces(tx.sender) <= tx.nonce
    ensures PastKept(h.pending, Joined(h, tx, t.bump).pending, t.nonces) && |Joined(h, tx, t.bump).all| <= |h.all| + 1
  {
    hide Outbids, Put, PastKept;
    var h' := Joined(h, tx, t.bump);
    SamePast(h.pending, t.nonces);
    PutPast(h.pending, tx, t.nonces);
    if h'.all != h.all { OneMoreThan(h.all, h'.all, tx); }
  }

  lemma OneMoreThan(all: set<Tx>, all': set<Tx>, tx: Tx)
    requires all' - {tx} <= all
    ensures |all'| <= |all| + 1
  {
    var less := all' - {tx};
    assert all' == less + (all' - less) && all' - less <= {tx};
    SubsetSize(less, all);
    SubsetSize(all' - less, {tx});
  }

  lemma PutPast(p: Lists, tx: Tx, nonces: Addr -> nat)
    requires nonces(tx.sender) <= tx.nonce
    ensures PastKept(p, Put(p, tx), nonces)
  {
    ElsewhereSame(p, tx.sender);
    ElsewherePut(p, p, tx);
    HigherPast(Of(p, tx.sender), map[tx.nonce := tx], nonces(tx.sender));
    assert Of(p, tx.sender)[tx.nonce := tx] == Of(p, tx.sender) + map[tx.nonce := tx];
  }

  lemma HigherPast(m: Slots, g: Slots, n: nat)
    requires forall k :: k in g ==> n <= k
    ensures Below(m + g, n) == Below(m, n)
  {
  }

  lemma AdmittedPast(t: Terms, h: Held, tx: Tx, local: bool, r: PoolError, replaced: bool, h': Held)
    requires Admitted(t, h, tx, local, r, replaced, h') && |h.all| < t.Capacity()
    ensures PastKept(h.pending, h'.pending, t.nonces) && |h'.all| <= |h.all| + 1
  {
    hide Spares, Fits, Steps, Joined, TooCheap, PastKept, In;
    SamePast(h.pending, t.nonces);
    if r == Accepted || r == ReplaceUnderpriced {
      JoinsPast(t, h, tx);
    }
  }

  lemma SamePast(p: Lists, nonces: Addr -> nat)
    ensures PastKept(p, p, nonces)
  {
  }

  lemma BothPast(p0: Lists, p1: Lists, p2: Lists, nonces: Addr -> nat)
    requires PastKept(p0, p1, nonces) && PastKept(p1, p2, nonces)
    ensures PastKept(p0, p2, nonces)
  {
    forall a ensures Below(Of(p2, a), nonces(a)) == Below(Of(p0, a), nonces(a)) {
      assert Below(Of(p1, a), nonces(a)) == Below(Of(p0, a), nonces(a));
    }
  }

  lemma {:induction false} ChainPast(t: Terms, h: Held, txs: seq<Tx>, local: bool, b: Batch, n: nat)
    requires Chained(t, h, txs, local, b) && n <= |b.rs| && |h.all| + |txs| <= t.Capacity()
    ensures PastKept(h.pending, b.seen[n].pending, t.nonces) && |b.seen[n].all| <= |h.all| + n
  {
    hide Admitted, PastKept;
    SamePast(h.pending, t.nonces);
    if n > 0 {
      ChainPast(t, h, txs, local, b, n - 1);
      AdmittedPast(t, b.seen[n - 1], txs[n - 1], local, b.rs[n - 1], b.replaced[n - 1], b.seen[n]);
      BothPast(h.pending, b.seen[n - 1].pending, b.seen[n].pending, t.nonces);
    }
  }

  lemma AdvancedPast(t: Terms, h: Held, mid: Held, accounts: set<Addr>)
    requires AllAdvanced(h.pending, h.queue, h.virtual, mid.pending, mid.queue, mid.virtual, accounts, t.nonces,
                         t.balances, t.gas, h.locals, t.accountQueue)
    ensures PastKept(h.pending, mid.pending, t.nonces)
  {
    hide ReadyEnd, Lowest, Affordable, Of, Clean;
    forall a ensures Below(Of(mid.pending, a), t.nonces(a)) == Below(Of(h.pending, a), t.nonces(a)) {
      assert Of(mid.pending, a) == Of(mid.pending, a);
      IsClean(Of(h.queue, a), t.nonces(a), t.balances(a), t.gas);
      var m := Clean(Of(h.queue, a), t.nonces(a), t.balances(a), t.gas);
      var e := ReadyEnd(m, Expected(t.nonces, h.virtual, a));
      HigherPast(Of(h.pending, a), Below(m, e), t.nonces(a));
    }
  }

  /** While there is room, nothing that is pending and too old leaves before it is demoted. */
  lemma RoomKeepsPast(t: Terms, h: Held, txs: seq<Tx>, local: bool, b: Batch, h': Held)
    requires Batched(t, h, txs, local, b, h') && |h.all| + |txs| <= t.globalSlots
    ensures PastKept(h.pending, h'.pending, t.nonces)
  {
    hide Chained, PastKept, AllAdvanced, Places, Total, Trimmed, CutTo, Swept, OneCut;
    var last := ChainEnd(b);
    ChainLast(t, h, txs, local, b);
    if h' != last {
      AdvancedPast(t, last, b.mid, Dirty(txs, b.rs, b.replaced));
      BothPast(h.pending, last.pending, b.mid.pending, t.nonces);
      TotalBound(b.mid.pending, b.mid.queue, b.mid.all);
      SubsetSize(b.mid.all, last.all);
    }
  }

  lemma ChainLast(t: Terms, h: Held, txs: seq<Tx>, local: bool, b: Batch)
    requires Chained(t, h, txs, local, b) && |b.rs| == |txs| && |h.all| + |txs| <= t.Capacity()
    ensures |b.rs| == |b.replaced| == |txs| && |b.seen| == |txs| + 1
    ensures PastKept(h.pending, ChainEnd(b).pending, t.nonces) && |ChainEnd(b).all| <= |h.all| + |txs|
  {
    hide Admitted, PastKept;
    ChainPast(t, h, txs, local, b, |txs|);
  }

  /** What a reset does to the nonces. */
  lemma ResetDone(t: Terms, nonces: Addr -> nat, v0: map<Addr, nat>, h0: Held, reinject: seq<Tx>, b: Batch, back: Held,
                  low: Held, h: Held)
    requires h0.virtual == map[] && Batched(t, h0, reinject, false, b, back) && Demotes(t, back, low)
    requires Steps(h0.pending, h0.virtual, back.pending, back.virtual, t.nonces, t.balances, t.gas)
    requires Steps(low.pending, low.virtual, h.pending, h.virtual, t.nonces, t.balances, t.gas)
    ensures forall a :: Unbroken(h0.pending, nonces, v0, a) && nonces(a) <= t.nonces(a) ==>
              Settles(h.pending, h.virtual, t.nonces, a, Below(Of(back.pending, a), t.nonces(a)) ==
                        Below(Of(h0.pending, a), t.nonces(a)))
    ensures forall a :: Unbroken(h0.pending, nonces, v0, a) && nonces(a) == t.nonces(a) ==>
              Unbroken(h.pending, t.nonces, h.virtual, a)
    ensures |h0.all| + |reinject| <= t.globalSlots ==>
              forall a :: Unbroken(h0.pending, nonces, v0, a) && nonces(a) <= t.nonces(a) ==>
                Unbroken(h.pending, t.nonces, h.virtual, a)
    ensures reinject == [] && Contiguous(h0.pending, nonces, v0) && back == h0 ==>
              Contiguous(low.pending, t.nonces, low.virtual)
    ensures low.all <= back.all
    ensures forall tx :: tx in back.all && tx !in low.all ==>
              tx.nonce < t.nonces(tx.sender) || !Affordable(tx, t.balances(tx.sender), t.gas)
  {
    hide Batched, Demotes, Steps, Unbroken, Settles, Below, Affordable;
    forall a | Unbroken(h0.pending, nonces, v0, a) && nonces(a) <= t.nonces(a)
      ensures Settles(h.pending, h.virtual, t.nonces, a, Below(Of(back.pending, a), t.nonces(a)) ==
                        Below(Of(h0.pending, a), t.nonces(a)))
      ensures nonces(a) == t.nonces(a) ==> Unbroken(h.pending, t.nonces, h.virtual, a)
    {
      ResetSteps(t, nonces, v0, h0, back, low, h, a);
    }
    if |h0.all| + |reinject| <= t.globalSlots {
      RoomKeepsPast(t, h0, reinject, false, b, back);
      forall a | Unbroken(h0.pending, nonces, v0, a)
      && nonces(a) <= t.nonces(a) ensures Unbroken(h.pending, t.nonces, h.virtual, a) {
        assert Below(Of(back.pending, a), t.nonces(a)) == Below(Of(h0.pending, a), t.nonces(a));
        SettlesWell(h.pending, h.virtual, t.nonces, a);
      }
    }
    DemotedContiguous(t, nonces, v0, h0, low, back);
  }

  lemma SettlesWell(p: Lists, v: map<Addr, nat>, nonces: Addr -> nat, a: Addr)
    requires Settles(p, v, nonces, a, true)
    ensures Unbroken(p, nonces, v, a)
  {
  }

  lemma DemotedContiguous(t: Terms, nonces: Addr -> nat, v0: map<Addr, nat>, h0: Held, low: Held, back: Held)
    requires Demotes(t, back, low) && h0.virtual == map[]
    ensures Contiguous(h0.pending, nonces, v0) && back == h0 ==> Contiguous(low.pending, t.nonces, low.virtual)
    ensures low.all <= back.all
    ensures forall tx :: tx in back.all && tx !in low.all ==>
              tx.nonce < t.nonces(tx.sender) || !Affordable(tx, t.balances(tx.sender), t.gas)
  {
    hide AllDemoted, Above, Places, Affordable, Unbroken, Gapless, NoEmpty;
    if Contiguous(h0.pending, nonces, v0) && back == h0 {
      AlwaysGapless(h0.pending, nonces, v0, t.nonces, t.balances, t.gas);
      forall a ensures Unbroken(low.pending, t.nonces, low.virtual, a) {
        RaisedUnbroken(h0.pending, map[], low.pending, low.virtual, t.nonces, t.balances, t.gas, a);
      }
    }
  }
}
