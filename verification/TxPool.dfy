/**
 The transaction pool: executable transactions in pending lists, others in queues, an index of
 all of them and a heap of their prices. Every operation keeps each transaction in exactly one
 place, and keeps the pending nonces of every account free of gaps.
 */
module TxPool {
  import opened Common
  import opened TxSortedMap
  import opened TxList
  import opened TxPriced
  import opened PoolPlaces
  import opened PoolNonces
  import opened PoolSteps
  import opened PoolRuns
  import opened PoolReturns

  class TxPool {
    const globalSlots: nat
    const globalQueue: nat
    const accountSlots: nat
    const accountQueue: nat
    const priceBump: nat
    /** What a transaction has of its own: its size, whether its signature gives the sender, and its
        intrinsic gas, unless that does not fit. */
    const size: Tx -> nat
    const signed: Tx -> bool
    const intrinsic: Tx -> Option<nat>
    const priced: PricedList

    var gasPrice: nat
    var maxGas: nat
    /** The state of the current head: nonces and balances of all accounts. */
    var nonces: Addr -> nat
    var balances: Addr -> nat
    /** The nonces that the pool expects, where it manages them. */
    var virtual: map<Addr, nat>
    var pending: Lists
    var queue: Lists
    var all: set<Tx>
    var locals: set<Addr>

    /** Every known transaction is in one place, or in hand; the heap has all of them, but for
        those that have been taken off it. */
    ghost predicate Sound(hand: set<Tx>, off: set<Tx>)
      reads this, priced
    {
      Places(pending, queue, all, hand) && NoEmpty(pending) && NoEmpty(queue) && priced.Valid(all - off)
    }

    ghost predicate Valid()
      reads this, priced
    {
      Sound({}, {})
    }

    /** Pending nonces have no gaps, and nothing in the queue is older than the state. */
    ghost predicate Ordered()
      reads this
    {
      Contiguous(pending, nonces, virtual) && NoneStale(queue, nonces)
    }

    ghost function Now(): Held
      reads this
    {
      Held(pending, queue, all, virtual, locals)
    }

    function Given(): Terms
      reads this
    {
      Terms(nonces, balances, maxGas, gasPrice, size, signed, intrinsic, priceBump, accountSlots, accountQueue,
            globalSlots, globalQueue)
    }

    /** Since some earlier lists, the pending nonces have moved without new gaps. */
    ghost predicate StepsFrom(p: Lists, v: map<Addr, nat>)
      reads this
    {
      Steps(p, v, pending, virtual, nonces, balances, maxGas)
    }

    /** By how much the counter of stale heap entries is too high. */
    ghost function Skew(): int
      reads this, priced
    {
      priced.stales - |priced.items| + |all|
    }

    constructor (globalSlots: nat, globalQueue: nat, accountSlots: nat, accountQueue: nat, priceBump: nat,
                 size: Tx -> nat, signed: Tx -> bool, intrinsic: Tx -> Option<nat>, gasPrice: nat, maxGas: nat,
                 nonces: Addr -> nat, balances: Addr -> nat)
      ensures Valid() && Steady() && Skew() == 0 && fresh(priced) && Now() == Held(map[], map[], {}, map[], {})
      ensures Given() == Terms(nonces, balances, maxGas, gasPrice, size, signed, intrinsic, priceBump, accountSlots,
                               accountQueue, globalSlots, globalQueue)
    {
      this.globalSlots, this.globalQueue, this.accountSlots := globalSlots, globalQueue, accountSlots;
      this.accountQueue, this.priceBump, this.size, this.signed := accountQueue, priceBump, size, signed;
      this.intrinsic := intrinsic;
      this.gasPrice, this.maxGas, this.nonces, this.balances := gasPrice, maxGas, nonces, balances;
      priced := new PricedList();
      virtual, pending, queue, all, locals := map[], map[], map[], {}, {};
    }

    /** A transaction in hand is forgotten, and the heap is told. */
    method DropTx(tx: Tx, ghost hand: set<Tx>)
      requires Sound(hand, {}) && tx in hand
      modifies this`all, priced
      ensures Sound(hand - {tx}, {}) && all == old(all) - {tx} && tx in old(all)
      ensures old(Skew()) == 0 ==> Skew() == 0
    {
      hide Places, NoEmpty, IsPriceHeap, Covers;
      Forget(pending, queue, all, hand, {tx});
      FewerCovered(priced.items, all, tx);
      assert |all - {tx}| == |all| - 1;
      all := all - {tx};
      assert all - {} == all;
      priced.Removed(all);
    }

    /** Transactions in hand are forgotten one after the other. */
    method Drop(txs: seq<Tx>, ghost hand: set<Tx>)
      requires Sound(hand, {}) && SetOf(txs) <= hand && NoDup(txs)
      modifies this`all, priced
      ensures Sound(hand - SetOf(txs), {}) && all == old(all) - SetOf(txs)
      ensures old(Skew()) == 0 ==> Skew() == 0
    {
      hide Sound, Skew;
      var i := 0;
      DropNone(txs, hand, all);
      while i < |txs|
        invariant 0 <= i <= |txs| && Sound(hand - SetOf(txs[..i]), {}) && all == old(all) - SetOf(txs[..i])
        invariant old(Skew()) == 0 ==> Skew() == 0
      {
        DropOne(txs, i, hand, old(all));
        DropTx(txs[i], hand - SetOf(txs[..i]));
        i := i + 1;
      }
      assert txs[..i] == txs;
    }

    /** `enqueueTx` for a transaction in hand: its nonce is free, so it goes to the queue. */
    method Requeue(tx: Tx, ghost hand: set<Tx>, ghost off: set<Tx>)
      requires Sound(hand, off) && tx in hand
      modifies this`queue
      ensures queue == Put(old(queue), tx) && Sound(hand - {tx}, off)
    {
      hide Places, NoEmpty, IsPriceHeap, Covers, PoolPlaces.Put;
      PutQueue(pending, queue, all, hand, tx);
      PutNoEmpty(queue, tx);
      queue := Put(queue, tx);
    }

    /** `enqueueTx` for a new transaction: it goes to the queue of its account, unless it does not
        outbid the one that is there. */
    method EnqueueTx(tx: Tx) returns (ok: bool, replaced: bool)
      requires Valid() && tx !in all && !Has(pending, tx.sender, tx.nonce)
      modifies this`queue, this`all, priced
      ensures Valid()
      ensures ok <==> (Has(old(queue), tx.sender, tx.nonce) ==> Outbids(old(queue)[tx.sender][tx.nonce], tx, priceBump))
      ensures replaced == (ok && Has(old(queue), tx.sender, tx.nonce))
      ensures ok ==> queue == Put(old(queue), tx)
      ensures ok ==> all == (if replaced then old(all) - {old(queue)[tx.sender][tx.nonce]} else old(all)) + {tx}
      ensures !ok ==> queue == old(queue) && all == old(all)
      ensures old(Skew()) == 0 ==> Skew() == 0
    {
      hide Places, NoEmpty, IsPriceHeap, Covers, PoolPlaces.Put;
      var l := Of(queue, tx.sender);
      replaced := tx.nonce in l;
      if replaced {
        var prior := l[tx.nonce];
        if prior.price >= tx.price || prior.price * (100 + priceBump) / 100 > tx.price {
          return false, false;
        }
        ReplaceQueued(pending, queue, all, tx);
        Unindex(prior);
      } else {
        AddQueued(pending, queue, all, tx);
        assert all - {} == all;
      }
      PutNoEmpty(queue, tx);
      queue := Put(queue, tx);
      Index(tx);
      ok := true;
    }

    /** A transaction leaves the index of all transactions, and the heap is told. */
    method Unindex(tx: Tx)
      requires priced.Valid(all - {}) && tx in all
      modifies this`all, priced
      ensures all == old(all) - {tx} && priced.Valid(all)
      ensures old(Skew()) == 0 ==> Skew() == 0
    {
      hide IsPriceHeap, Covers;
      FewerCovered(priced.items, all, tx);
      assert |all - {tx}| == |all| - 1;
      all := all - {tx};
      priced.Removed(all);
    }

    /** A transaction enters the index and the heap. */
    method Index(tx: Tx)
      requires priced.Valid(all) && tx !in all
      modifies this`all, priced
      ensures all == old(all) + {tx} && priced.Valid(all - {})
      ensures Skew() == old(Skew())
    {
      hide IsPriceHeap, Covers;
      priced.Put(tx, all);
      all := all + {tx};
      assert all - {} == all;
      assert |multiset(priced.items)| == |multiset(old(priced.items))| + 1;
    }

    /** Transactions in hand go to their queues. */
    method RequeueAll(txs: seq<Tx>, ghost hand: set<Tx>, ghost off: set<Tx>)
      requires Sound(hand, off) && SetOf(txs) <= hand && NoDup(txs)
      modifies this`queue
      ensures Sound(hand - SetOf(txs), off)
    {
      hide Sound;
      var i := 0;
      DropNone(txs, hand, all);
      while i < |txs|
        invariant 0 <= i <= |txs| && Sound(hand - SetOf(txs[..i]), off)
      {
        DropOne(txs, i, hand, all);
        Requeue(txs[i], hand - SetOf(txs[..i]), off);
        i := i + 1;
      }
      assert txs[..i] == txs;
    }

    /** `removeTx`: the transaction leaves the pool; whatever follows it in a pending list goes
        back to the queue, and the pool expects its nonce again. */
    method RemoveTx(tx: Tx, outOfBound: bool, ghost off: set<Tx>)
      requires Sound({}, off) && (outOfBound ==> off == {})
      modifies this`all, this`pending, this`queue, this`virtual, priced
      ensures Sound({}, off - {tx}) && all == old(all) - {tx}
      ensures (old(Ordered()) ==> Ordered()) && StepsFrom(old(pending), old(virtual))
      ensures outOfBound ==> (old(Skew()) == 0 ==> Skew() == 0)
      ensures !outOfBound ==> priced.items == old(priced.items) && priced.stales == old(priced.stales)
      ensures old(Contiguous(pending, nonces, virtual)) ==>
                KeepWaiting(old(queue), old(virtual), queue, virtual, nonces)
      ensures tx !in old(all) ==> pending == old(pending) && queue == old(queue) && virtual == old(virtual)
      ensures old(In(pending, tx)) ==> CutAt(old(pending), old(queue), pending, queue, tx)
      ensures old(In(queue, tx)) ==> pending == old(pending) && virtual == old(virtual)
      ensures old(In(queue, tx)) ==> queue == Set(old(queue), tx.sender, old(queue)[tx.sender] - {tx.nonce})
    {
      hide Places, NoEmpty, IsPriceHeap, Covers, Contiguous, KeepWaiting, Set, CutAt, Steps;
      Found(pending, queue, all, tx);
      NoSteps(pending, virtual, nonces, balances, maxGas);
      if tx !in all {
        assert all - {tx} == all;
        OffLess(all, off, tx);
        SameWaits(queue, virtual, nonces);
        return;
      }
      ghost var all0 := all;
      Strike(tx, outOfBound, off);
      if tx.sender in pending && tx.nonce in pending[tx.sender] {
        UnlinkPending(tx, all0, off - {tx});
      } else if tx.sender in queue {
        LessWaits(queue, virtual, nonces, tx.sender, queue[tx.sender] - {tx.nonce});
        UnlinkQueued(tx, all0, off - {tx});
      }
    }

    /** A pending list is cut at a transaction, and what followed it is queued. */
    method UnlinkPending(tx: Tx, ghost all0: set<Tx>, ghost off: set<Tx>)
      requires Places(pending, queue, all0, {}) && NoEmpty(pending) && NoEmpty(queue) && priced.Valid(all - off)
      requires all == all0 - {tx} && In(pending, tx)
      modifies this`pending, this`queue, this`virtual
      ensures Sound({}, off) && (old(Ordered()) ==> Ordered()) && StepsFrom(old(pending), old(virtual))
      ensures CutAt(old(pending), old(queue), pending, queue, tx)
      ensures virtual == (if Expected(nonces, old(virtual), tx.sender) > tx.nonce
                          then old(virtual)[tx.sender := tx.nonce] else old(virtual))
      ensures old(Contiguous(pending, nonces, virtual)) ==>
                KeepWaiting(old(queue), old(virtual), queue, virtual, nonces)
    {
      hide Places, NoEmpty, IsPriceHeap, Covers, Contiguous, NoneStale, Values, From, Below, Set, Elsewhere,
           KeepWaiting, Steps, CutAt, In;
      var a := tx.sender;
      ghost var pending0, queue0, virtual0 := pending, queue, virtual;
      CutTaken(pending, queue, all0, tx);
      var m := pending[a];
      var invalids := Flat(From(m, tx.nonce + 1));
      SetNoEmpty(pending, a, Below(m, tx.nonce));
      pending := Set(pending, a, Below(m, tx.nonce));
      RequeueAll(invalids, Values(From(m, tx.nonce + 1)), off);
      assert Values(From(m, tx.nonce + 1)) - SetOf(invalids) == {};
      if Expected(nonces, virtual, a) > tx.nonce {
        virtual := virtual[a := tx.nonce];
      }
      CutDone(pending0, queue0, all0, virtual0, pending, queue, virtual, nonces, balances, maxGas, tx);
    }

    /** A queued transaction is taken out. */
    method UnlinkQueued(tx: Tx, ghost all0: set<Tx>, ghost off: set<Tx>)
      requires Places(pending, queue, all0, {}) && NoEmpty(pending) && NoEmpty(queue) && priced.Valid(all - off)
      requires all == all0 - {tx} && In(queue, tx)
      modifies this`queue
      ensures Sound({}, off) && (old(Ordered()) ==> Ordered())
      ensures queue == Set(old(queue), tx.sender, old(queue)[tx.sender] - {tx.nonce})
    {
      hide Places, NoEmpty, IsPriceHeap, Covers, Contiguous, NoneStale;
      var a := tx.sender;
      if NoneStale(queue, nonces) { LessFresh(queue, nonces, a, queue[a] - {tx.nonce}); }
      TakeOne(pending, queue, all0, tx);
      Forget(pending, Set(queue, a, queue[a] - {tx.nonce}), all0, {tx}, {tx});
      assert {tx} - {tx} == {};
      SetNoEmpty(queue, a, queue[a] - {tx.nonce});
      queue := Set(queue, a, queue[a] - {tx.nonce});
    }

    /** A transaction leaves the index; the heap is told, unless it has been taken off it before. */
    method Strike(tx: Tx, outOfBound: bool, ghost off: set<Tx>)
      requires priced.Valid(all - off) && tx in all && (outOfBound ==> off == {})
      modifies this`all, priced
      ensures all == old(all) - {tx} && priced.Valid(all - (off - {tx}))
      ensures outOfBound ==> (old(Skew()) == 0 ==> Skew() == 0)
      ensures !outOfBound ==> priced.items == old(priced.items) && priced.stales == old(priced.stales)
    {
      hide IsPriceHeap, Covers;
      if outOfBound {
        Unindex(tx);
        assert all - (off - {tx}) == all;
      } else {
        LessCovered(priced.items, all, off, tx);
        all := all - {tx};
      }
    }

    /** Part of a queue is dropped. */
    method DropQueued(a: Addr, g: Slots, m: Slots)
      requires Valid() && Part(g, Of(queue, a)) && Without(Of(queue, a), g, m) && Keyed(g)
      modifies this`queue, this`all, priced
      ensures Valid() && queue == Set(old(queue), a, m) && all == old(all) - Values(g)
      ensures old(Skew()) == 0 ==> Skew() == 0
    {
      hide Places, NoEmpty, IsPriceHeap, Covers, Values, Set, Part, Without;
      TakeQueue(pending, queue, all, {}, a, g, m);
      SetNoEmpty(queue, a, m);
      queue := Set(queue, a, m);
      var txs := Flat(g);
      assert {} + Values(g) == Values(g);
      Drop(txs, Values(g));
      assert Values(g) - SetOf(txs) == {};
    }

    /** `promoteTx`: a transaction in hand becomes executable, and the pool expects the next nonce.
        Its nonce is free. */
    method PromoteTx(tx: Tx, ghost hand: set<Tx>)
      requires Sound(hand, {}) && tx in hand
      modifies this`pending, this`virtual
      ensures Sound(hand - {tx}, {}) && pending == Put(old(pending), tx)
              && virtual == old(virtual)[tx.sender := tx.nonce + 1]
    {
      hide Places, NoEmpty, IsPriceHeap, Covers, PoolPlaces.Put;
      PutPending(pending, queue, all, hand, tx);
      PutNoEmpty(pending, tx);
      pending := Put(pending, tx);
      virtual := virtual[tx.sender := tx.nonce + 1];
    }

    /** Consecutive transactions in hand become executable one after the other. */
    method PromoteAll(txs: seq<Tx>, ghost a: Addr, ghost n: nat, ghost hand: set<Tx>)
      requires Sound(hand, {}) && SetOf(txs) <= hand && NoDup(txs)
      requires forall i :: 0 <= i < |txs| ==> txs[i].sender == a && txs[i].nonce == n + i
      modifies this`pending, this`virtual
      ensures Sound(hand - SetOf(txs), {}) && Elsewhere(old(pending), pending, a)
      ensures virtual == if txs == [] then old(virtual) else old(virtual)[a := n + |txs|]
    {
      hide Sound, Elsewhere, PoolPlaces.Put;
      DropNone(txs, hand, all);
      ElsewhereSame(pending, a);
      var i := 0;
      while i < |txs|
        invariant 0 <= i <= |txs| && Sound(hand - SetOf(txs[..i]), {}) && Elsewhere(old(pending), pending, a)
        invariant virtual == if i == 0 then old(virtual) else old(virtual)[a := n + i]
      {
        DropOne(txs, i, hand, all);
        ElsewherePut(old(pending), pending, txs[i]);
        PromoteTx(txs[i], hand - SetOf(txs[..i]));
        i := i + 1;
      }
      assert txs[..i] == txs;
    }

    /** A run of consecutive nonces moves from the queue to the pending list. */
    method PromoteRun(a: Addr, n: nat, e: nat)
      requires Valid() && Run(Of(queue, a), n, e)
      modifies this`queue, this`pending, this`virtual
      ensures Valid() && queue == Set(old(queue), a, From(Of(old(queue), a), e)) && Elsewhere(old(pending), pending, a)
      ensures Of(pending, a) == Of(old(pending), a) + Below(Of(old(queue), a), e)
      ensures virtual == if n == e then old(virtual) else old(virtual)[a := e]
    {
      hide Places, NoEmpty, IsPriceHeap, Covers, Values, Set, Order, From, Below, Run, Elsewhere, Keyed, Part, Without;
      var m := Of(queue, a);
      RunParts(pending, queue, all, e, a);
      TakeQueue(pending, queue, all, {}, a, Below(m, e), From(m, e));
      SetNoEmpty(queue, a, From(m, e));
      queue := Set(queue, a, From(m, e));
      var txs := Flat(Below(m, e));
      RunNonces(m, n, e, a);
      assert {} + Values(Below(m, e)) == Values(Below(m, e));
      PromoteAll(txs, a, n, Values(Below(m, e)));
      assert Values(Below(m, e)) - SetOf(txs) == {};
      ElsewhereSet(old(queue), a, From(m, e));
      Moved(old(pending), old(queue), pending, queue, all, a, Below(m, e));
    }

    /** Queued transactions that are too old or cannot be paid for are dropped. */
    method CleanQueued(a: Addr)
      requires Valid()
      modifies this`queue, this`all, priced
      ensures Valid() && Elsewhere(old(queue), queue, a)
              && Of(queue, a) == Clean(Of(old(queue), a), nonces(a), balances(a), maxGas)
      ensures all <= old(all)
      ensures old(Skew()) == 0 ==> Skew() == 0
    {
      hide Places, NoEmpty, IsPriceHeap, Covers, Elsewhere, Set, Of, From, Below, Paid, Unpaid, Part, Without, Keyed;
      ghost var q0 := queue;
      var m, nonce := Of(queue, a), nonces(a);
      KeyedOf(pending, queue, all, a);
      CleanParts(m, nonce, balances(a), maxGas);
      ElsewhereSet(queue, a, From(m, nonce));
      DropQueued(a, Below(m, nonce), From(m, nonce));
      ghost var q1 := queue;
      m := From(m, nonce);
      ElsewhereSet(queue, a, Paid(m, balances(a), maxGas));
      DropQueued(a, Unpaid(m, balances(a), maxGas), Paid(m, balances(a), maxGas));
      ElsewhereBoth(q0, q1, queue, a);
    }

    /** The transactions that have become executable are promoted. */
    method PromoteReady(a: Addr)
      requires Valid() && forall n :: n in Of(queue, a) ==>
                 nonces(a) <= n && Affordable(Of(queue, a)[n], balances(a), maxGas)
      modifies this`queue, this`pending, this`virtual
      ensures Valid() && Elsewhere(old(queue), queue, a) && Elsewhere(old(pending), pending, a)
      ensures var m, e := Of(old(queue), a), ReadyEnd(Of(old(queue), a), Expected(nonces, old(virtual), a));
              Of(queue, a) == From(m, e) && Of(pending, a) == Of(old(pending), a) + Below(m, e)
      ensures virtual - {a} == old(virtual) - {a} && StepsFrom(old(pending), old(virtual))
      ensures Expected(nonces, virtual, a) !in Of(queue, a)
      ensures Expected(nonces, virtual, a) == Reached(Of(old(queue), a), Expected(nonces, old(virtual), a))
    {
      hide Places, NoEmpty, IsPriceHeap, Covers, Elsewhere, Set, Of, Order, RunEnd, Run, From, Below, ReadyEnd, Keyed,
           Steps, Affordable, Step, Reached;
      var m, start := Of(queue, a), Expected(nonces, virtual, a);
      ghost var p0, v0 := pending, virtual;
      KeyedOf(pending, queue, all, a);
      var txs := Flat(m);
      LowestFirst(m, txs);
      ReadyIs(m, txs, start, Of(pending, a));
      ReachedIs(m, start);
      ReadySteps(pending, queue, all, virtual, nonces, balances, maxGas, a, m);
      if |txs| == 0 || txs[0].nonce > start {
        ElsewhereSame(queue, a);
        ElsewhereSame(pending, a);
        NoSteps(pending, virtual, nonces, balances, maxGas);
        return;
      }
      var n := txs[0].nonce;
      var e := RunEnd(m, n);
      ElsewhereSet(queue, a, From(m, e));
      PromoteRun(a, n, e);
      TrackedRun(p0, v0, pending, virtual, nonces, balances, maxGas, a, e);
    }

    /** Of an account that is not local no more stay than it may queue, the lowest nonces. */
    method LimitQueued(a: Addr)
      requires Valid()
      modifies this`queue, this`all, priced
      ensures Valid() && Elsewhere(old(queue), queue, a) && Lowest(Of(old(queue), a), Of(queue, a))
      ensures |Of(queue, a)| == Allowed(a in locals, accountQueue, |Of(old(queue), a)|)
      ensures all <= old(all)
      ensures old(Skew()) == 0 ==> Skew() == 0
    {
      hide Places, NoEmpty, IsPriceHeap, Covers, Elsewhere, Set, Of, Order;
      ElsewhereSame(queue, a);
      var m := Of(queue, a);
      KeyedOf(pending, queue, all, a);
      var txs := Flat(m);
      FlatFacts(m, txs);
      if a !in locals && |txs| > accountQueue {
        var bound := txs[accountQueue].nonce;
        CapSize(m, txs, accountQueue);
        ElsewhereSet(queue, a, Below(m, bound));
        DropQueued(a, From(m, bound), Below(m, bound));
      }
    }

    /** One account of `promoteExecutables`: transactions that are too old or cannot be paid for are
        dropped, the ones that have become executable are promoted, and of the rest no more stay
        than the account may queue, the lowest nonces. */
    method PromoteAccount(a: Addr)
      requires Valid()
      modifies this`queue, this`all, this`pending, this`virtual, priced
      ensures Valid() && Elsewhere(old(queue), queue, a) && Elsewhere(old(pending), pending, a)
      ensures Advanced(Of(old(pending), a), Of(old(queue), a), Expected(nonces, old(virtual), a), Of(pending, a),
                       Of(queue, a), nonces(a), balances(a), maxGas, a in locals, accountQueue)
      ensures virtual - {a} == old(virtual) - {a} && StepsFrom(old(pending), old(virtual))
      ensures all <= old(all)
      ensures old(Skew()) == 0 ==> Skew() == 0
      ensures Expected(nonces, virtual, a) !in Of(queue, a)
      ensures Expected(nonces, virtual, a) ==
              Reached(Clean(Of(old(queue), a), nonces(a), balances(a), maxGas), Expected(nonces, old(virtual), a))
    {
      hide Sound, Steps, Elsewhere, Of, ReadyEnd, From, Below, Lowest, Clean, Expected, Advanced, Allowed, Reached;
      ghost var q0 := queue;
      CleanQueued(a);
      IsClean(Of(q0, a), nonces(a), balances(a), maxGas);
      ghost var q1 := queue;
      PromoteReady(a);
      ghost var q2 := queue;
      LimitQueued(a);
      LowestLacks(Of(q2, a), Of(queue, a), Expected(nonces, virtual, a));
      IsAdvanced(Of(old(pending), a), Of(q0, a), Expected(nonces, old(virtual), a), Of(pending, a), Of(q1, a),
                 Of(q2, a), Of(queue, a), nonces(a), balances(a), maxGas, a in locals, accountQueue);
      ElsewhereBoth(q0, q1, q2, a);
      ElsewhereBoth(q0, q2, queue, a);
    }

    /** The highest nonce of a pending list is dropped, and the pool expects it again. */
    method DropLast(a: Addr)
      requires Valid() && a in pending
      modifies this`pending, this`virtual, this`all, priced
      ensures Valid() && Elsewhere(old(pending), pending, a)
      ensures |Of(pending, a)| == |old(pending)[a]| - 1 && Lowest(old(pending)[a], Of(pending, a))
      ensures Total(pending) == old(Total(pending)) - 1
      ensures StepsFrom(old(pending), old(virtual))
      ensures all <= old(all)
      ensures old(Skew()) == 0 ==> Skew() == 0
    {
      hide Places, NoEmpty, IsPriceHeap, Covers, Elsewhere, Set, Of, Order, Steps, Values, Lowest, Total, From, Below,
           Keyed;
      var m := pending[a];
      HasList(pending, a);
      KeyedOf(pending, queue, all, a);
      var txs := Flat(m);
      FlatFacts(m, txs);
      var tx := txs[|txs| - 1];
      LastFacts(pending, queue, all, a, txs);
      TakeFrom(pending, queue, all, a, tx.nonce);
      CutSteps(pending, virtual, nonces, balances, maxGas, a, tx.nonce);
      ElsewhereSet(pending, a, Below(m, tx.nonce));
      SetNoEmpty(pending, a, Below(m, tx.nonce));
      TotalSet(pending, a, Below(m, tx.nonce));
      pending := Set(pending, a, Below(m, tx.nonce));
      DropTx(tx, {tx});
      assert {tx} - {tx} == {};
      if Expected(nonces, virtual, a) > tx.nonce {
        virtual := virtual[a := tx.nonce];
      }
    }

    /** One round over several accounts with equally long lists: each loses its last transaction. */
    method DropRound(accounts: seq<Addr>, ghost size: nat, ghost start: Lists, ghost trimmed: set<Addr>)
      requires Valid() && Apart(accounts) && Even(pending, accounts, size) && size > 0
      requires Trimmed(start, pending, trimmed) && Among(accounts, trimmed)
      modifies this`pending, this`virtual, this`all, priced
      ensures Valid() && Even(pending, accounts, size - 1) && Trimmed(start, pending, trimmed)
      ensures forall a :: a !in accounts ==> Of(pending, a) == Of(old(pending), a)
      ensures Total(pending) == old(Total(pending)) - |accounts|
      ensures StepsFrom(old(pending), old(virtual))
      ensures all <= old(all)
      ensures old(Skew()) == 0 ==> Skew() == 0
    {
      hide Sound, Of, Elsewhere, Trimmed, Lowest, Total, Steps, Skew, Even, Apart;
      NoSteps(pending, virtual, nonces, balances, maxGas);
      PartlyEven(pending, accounts, size);
      var i := 0;
      while i < |accounts|
        invariant 0 <= i <= |accounts| && Valid() && Trimmed(start, pending, trimmed)
        invariant Partly(pending, accounts, i, size)
        invariant forall a :: a !in accounts ==> Of(pending, a) == Of(old(pending), a)
        invariant Total(pending) == old(Total(pending)) - i
        invariant StepsFrom(old(pending), old(virtual))
        invariant all <= old(all)
        invariant old(Skew()) == 0 ==> Skew() == 0
      {
        var a := accounts[i];
        ghost var before, v := pending, virtual;
        assert |Of(pending, a)| == size;
        SizeIn(pending, a);
        DropLast(a);
        MoreSteps(old(pending), old(virtual), before, v, pending, virtual, nonces, balances, maxGas);
        TrimmedOne(start, before, pending, trimmed, a);
        ElsewhereAll(before, pending, a);
        PartlyOne(before, pending, accounts, i, size);
        i := i + 1;
      }
      PartlyEven(pending, accounts, size);
    }

    /** The account with the longest pending list, which the priority queue gives first. */
    method Longest(accounts: set<Addr>) returns (a: Addr)
      requires accounts != {}
      ensures a in accounts && forall x :: x in accounts ==> |Of(pending, x)| <= |Of(pending, a)|
    {
      hide Of;
      a :| a in accounts;
      var rest := accounts - {a};
      while rest != {}
        invariant rest <= accounts && a in accounts
        invariant forall x :: x in accounts && x !in rest ==> |Of(pending, x)| <= |Of(pending, a)|
        decreases rest
      {
        var x :| x in rest;
        if |Of(pending, x)| > |Of(pending, a)| {
          a := x;
        }
        rest := rest - {x};
      }
    }

    /** Equally long lists are shortened, round by round, until the total is within the limit or
        they are down to a given size. */
    method Shorten(accounts: seq<Addr>, ghost size: nat, floor: nat, count: nat, ghost start: Lists,
                   ghost trimmed: set<Addr>)
      returns (total: nat, ghost size': nat)
      requires Valid() && Apart(accounts) && accounts != [] && Even(pending, accounts, size) && floor <= size
      requires Trimmed(start, pending, trimmed) && Among(accounts, trimmed) && count == Total(pending)
      modifies this`pending, this`virtual, this`all, priced
      ensures Valid() && Even(pending, accounts, size') && floor <= size' <= size && Trimmed(start, pending, trimmed)
      ensures forall a :: a !in accounts ==> Of(pending, a) == Of(old(pending), a)
      ensures total == Total(pending) && (total > globalSlots ==> size' == floor)
      ensures count > globalSlots ==> total + |accounts| > globalSlots
      ensures count <= globalSlots ==> pending == old(pending)
      ensures StepsFrom(old(pending), old(virtual))
      ensures all <= old(all)
      ensures old(Skew()) == 0 ==> Skew() == 0
    {
      hide Sound, Of, Trimmed, Total, Steps, Skew, Apart, Among;
      NoSteps(pending, virtual, nonces, balances, maxGas);
      total, size' := count, size;
      while total > globalSlots && |Of(pending, accounts[|accounts| - 1])| > floor
        invariant Valid() && Even(pending, accounts, size') && floor <= size' <= size
                  && Trimmed(start, pending, trimmed)
        invariant forall a :: a !in accounts ==> Of(pending, a) == Of(old(pending), a)
        invariant total == Total(pending) && (count > globalSlots ==> total + |accounts| > globalSlots)
        invariant count <= globalSlots ==> pending == old(pending) && total == count
        invariant StepsFrom(old(pending), old(virtual))
        invariant all <= old(all)
        invariant old(Skew()) == 0 ==> Skew() == 0
        decreases size'
      {
        ghost var p, v := pending, virtual;
        DropRound(accounts, size', start, trimmed);
        MoreSteps(old(pending), old(virtual), p, v, pending, virtual, nonces, balances, maxGas);
        total, size' := total - |accounts|, size' - 1;
      }
    }

    /** The fair truncation of `promoteExecutables`: while there are too many pending transactions,
        the longest lists are cut back, evenly, first to the size of the next longest one and in
        the end to the guaranteed size. In effect all lists longer than one level are cut to it,
        which is not below the guarantee. Local accounts and accounts within their guarantee lose
        nothing, and no more is cut than one round takes. */
    method Truncate() returns (ghost offenders: set<Addr>, ghost level: nat)
      requires Valid()
      modifies this`pending, this`virtual, this`all, priced
      ensures Valid() && Trimmed(old(pending), pending, offenders)
      ensures CutTo(old(pending), pending, locals, level) && level >= accountSlots
      ensures forall a :: a in offenders ==>
                a !in locals && |Of(old(pending), a)| > accountSlots && |Of(pending, a)| >= accountSlots
      ensures Total(pending) <= globalSlots || forall a :: a !in locals ==> |Of(pending, a)| <= accountSlots
      ensures old(Total(pending)) <= globalSlots ==> pending == old(pending) && virtual == old(virtual)
      ensures old(Total(pending)) > globalSlots ==> Total(pending) + |offenders| > globalSlots
      ensures StepsFrom(old(pending), old(virtual))
      ensures all <= old(all)
      ensures old(Skew()) == 0 ==> Skew() == 0
    {
      hide Sound, Of, Trimmed, Total, Steps, Skew, Level, CutTo;
      NoSteps(pending, virtual, nonces, balances, maxGas);
      ghost var p0 := pending;
      level := Total(pending) + accountSlots;
      NothingCut(pending, locals, level);
      var total := CountAll(pending);
      var offs: seq<Addr> := [];
      ghost var size: nat := 0;
      offenders := {};
      TrimmedNone(pending);
      if total > globalSlots {
        var spammers := Spammers();
        NoOffenders(pending, locals, accountSlots, spammers, globalSlots, total);
        while total > globalSlots && spammers != {}
          invariant Valid() && total == Total(pending) && total + |offs| > globalSlots
          invariant Level(p0, pending, locals, accountSlots, globalSlots, offs, spammers, offenders, size, total)
          invariant StepsFrom(old(pending), old(virtual))
          invariant all <= old(all)
          invariant old(Skew()) == 0 ==> Skew() == 0
          decreases spammers
        {
          var next := Longest(spammers);
          ghost var p, v := pending, virtual;
          total, size := CutNext(offs, spammers, next, total, size, p0, offenders);
          MoreSteps(old(pending), old(virtual), p, v, pending, virtual, nonces, balances, maxGas);
          spammers, offs, offenders := spammers - {next}, offs + [next], offenders + {next};
        }
        ghost var p, v := pending, virtual;
        total, level := CutLast(offs, spammers, total, size, p0, offenders);
        MoreSteps(old(pending), old(virtual), p, v, pending, virtual, nonces, balances, maxGas);
      }
    }

    /** The next longest list joins those being cut, which are brought down to its size. */
    method CutNext(offs: seq<Addr>, ghost spammers: set<Addr>, next: Addr, count: nat, ghost size: nat, ghost p0: Lists,
                   ghost offenders: set<Addr>)
      returns (total: nat, ghost size': nat)
      requires Valid() && count == Total(pending) && count > globalSlots
      requires Level(p0, pending, locals, accountSlots, globalSlots, offs, spammers, offenders, size, count)
      requires next in spammers && forall a :: a in spammers ==> |Of(pending, a)| <= |Of(pending, next)|
      modifies this`pending, this`virtual, this`all, priced
      ensures Valid() && total == Total(pending) && total + |offs| + 1 > globalSlots
      ensures Level(p0, pending, locals, accountSlots, globalSlots, offs + [next], spammers - {next},
                    offenders + {next}, size', total)
      ensures StepsFrom(old(pending), old(virtual))
      ensures all <= old(all)
      ensures old(Skew()) == 0 ==> Skew() == 0
    {
      hide Sound, Of, Trimmed, Total, Steps, Skew, Apart, Among, Even, Suspects, Level;
      NoSteps(pending, virtual, nonces, balances, maxGas);
      LevelFacts(p0, pending, locals, accountSlots, globalSlots, offs, spammers, offenders, size, count, next);
      ghost var before := pending;
      if |offs| > 0 {
        total, size' := Shorten(offs, size, |Of(pending, next)|, count, p0, offenders + {next});
      } else {
        total, size' := count, |Of(pending, next)|;
        NobodyEven(pending, offs, size');
      }
      NextLevel(p0, before, pending, locals, accountSlots, globalSlots, offs, spammers, offenders, size, count, next,
                size', total);
    }

    /** What is left to cut is cut down to the guaranteed size, as far as needed. */
    method CutLast(offs: seq<Addr>, ghost spammers: set<Addr>, count: nat, ghost size: nat, ghost p0: Lists,
                   ghost offenders: set<Addr>)
      returns (total: nat, ghost level: nat)
      requires Valid() && count == Total(pending) && count + |offs| > globalSlots
               && (count > globalSlots ==> spammers == {})
      requires Level(p0, pending, locals, accountSlots, globalSlots, offs, spammers, offenders, size, count)
      modifies this`pending, this`virtual, this`all, priced
      ensures Valid() && Trimmed(p0, pending, offenders) && total == Total(pending) && total + |offenders| > globalSlots
      ensures CutTo(p0, pending, locals, level) && level >= accountSlots
      ensures forall a :: a in offenders ==> a !in locals && |Of(p0, a)| > accountSlots
                                             && |Of(pending, a)| >= accountSlots
      ensures total <= globalSlots || forall a :: a !in locals ==> |Of(pending, a)| <= accountSlots
      ensures StepsFrom(old(pending), old(virtual))
      ensures all <= old(all)
      ensures old(Skew()) == 0 ==> Skew() == 0
    {
      hide Sound, Of, Trimmed, Total, Steps, Skew, Apart, Among, Even, CutTo;
      NoSteps(pending, virtual, nonces, balances, maxGas);
      total, level := count, if offs == [] then accountSlots else size;
      AllCut(p0, pending, locals, accountSlots, globalSlots, offs, spammers, offenders, size, count);
      if total > globalSlots && |offs| > 0 {
        total, level := Shorten(offs, size, accountSlots, total, p0, offenders);
        AllReached(p0, locals, accountSlots, pending, offs, spammers, offenders, level);
        EvenIsCut(p0, pending, locals, accountSlots, offs, offenders, level);
      }
      if total > globalSlots {
        AllWithin(p0, pending, locals, accountSlots, offs, offenders);
      }
    }

    /** The accounts that are not local and have more than the guaranteed number of transactions. */
    method Spammers() returns (r: set<Addr>)
      ensures forall a :: a in r <==> a in pending && a !in locals && |pending[a]| > accountSlots
    {
      r := set a | a in pending && a !in locals && |pending[a]| > accountSlots;
    }

    /** The highest nonces of a queue are removed, so many of them. */
    method RemoveTail(a: Addr, k: nat)
      requires Valid() && k <= |Of(queue, a)|
      modifies this`queue, this`all, this`pending, this`virtual, priced
      ensures Valid() && Elsewhere(old(queue), queue, a) && pending == old(pending) && virtual == old(virtual)
      ensures |Of(queue, a)| == |Of(old(queue), a)| - k && Lowest(Of(old(queue), a), Of(queue, a))
      ensures Total(queue) == old(Total(queue)) - k
      ensures old(Ordered()) ==> Ordered()
      ensures all <= old(all)
      ensures old(Skew()) == 0 ==> Skew() == 0
    {
      hide Places, NoEmpty, IsPriceHeap, Covers, Elsewhere, Set, Of, Order, Contiguous, NoneStale, Lowest, Total, Below,
           Skew;
      var m := Of(queue, a);
      ValidKeys(pending, queue, all, a);
      var txs := Flat(m);
      FlatFacts(m, txs);
      var i := |txs|;
      ElsewhereSame(queue, a);
      ghost var bound := Above(m);
      while i > |txs| - k
        invariant |txs| - k <= i <= |txs| && Valid() && Elsewhere(old(queue), queue, a)
        invariant pending == old(pending) && virtual == old(virtual)
        invariant Of(queue, a) == Below(m, bound) && bound == (if i < |txs| then txs[i].nonce else Above(m))
        invariant Total(queue) == old(Total(queue)) - (|txs| - i)
        invariant old(Ordered()) ==> Ordered()
        invariant all <= old(all)
        invariant old(Skew()) == 0 ==> Skew() == 0
      {
        i := i - 1;
        var tx := txs[i];
        ghost var q1 := queue;
        TailStep(m, txs, i, bound);
        assert m[tx.nonce].sender == a;
        TailTx(queue, a, m, bound, tx);
        ElsewhereSet(queue, a, queue[a] - {tx.nonce});
        TotalSet(queue, a, queue[a] - {tx.nonce});
        RemoveTx(tx, true, {});
        assert {} - {tx} == {};
        ElsewhereBoth(old(queue), q1, queue, a);
        bound := tx.nonce;
      }
      TailLowest(m, txs, i, bound);
    }

    /** The limit on all queues of `promoteExecutables`: while too much is queued, accounts that are
        not local lose their whole queues, one after the other, those with the latest heartbeats
        first, and the last of them only the highest nonces, so that the limit is met exactly. */
    method LimitQueue(beats: Addr -> nat)
      requires Valid()
      modifies this`queue, this`all, this`pending, this`virtual, priced
      ensures Valid() && pending == old(pending) && virtual == old(virtual)
      ensures Swept(old(queue), queue, locals, {}, true) && OneCut(old(queue), queue)
      ensures LatestFirst(old(queue), queue, locals, beats)
      ensures old(Total(queue)) <= globalQueue ==> queue == old(queue)
      ensures old(Total(queue)) > globalQueue ==> Total(queue) >= globalQueue
      ensures Total(queue) <= globalQueue || forall a :: a in queue ==> a in locals
      ensures old(Ordered()) ==> Ordered()
      ensures all <= old(all)
      ensures old(Skew()) == 0 ==> Skew() == 0
    {
      hide Sound, Of, Total, Contiguous, NoneStale, Skew, Elsewhere, Lowest, Swept, OneCut;
      var q0 := queue;
      var total := CountAll(queue);
      NotSwept(queue, locals, {});
      if total <= globalQueue {
        return;
      }
      var rest := set a | a in queue && a !in locals;
      NotSwept(queue, locals, rest);
      var drop: nat := total - globalQueue;
      while drop > 0 && rest != {}
        invariant Valid() && pending == old(pending) && virtual == old(virtual)
        invariant Swept(q0, queue, locals, rest, drop == 0) && OneCut(q0, queue) && rest !! locals
        invariant LatestFirst(q0, queue, locals, beats) && Earlier(q0, locals, rest, beats)
        invariant Total(queue) == globalQueue + drop
        invariant old(Ordered()) ==> Ordered()
        invariant all <= old(all)
        invariant old(Skew()) == 0 ==> Skew() == 0
        decreases rest
      {
        ghost var latest := LatestExists(rest, beats);
        var a :| a in rest && forall b :: b in rest ==> beats(b) <= beats(a);
        ghost var before := queue;
        var size := |Of(queue, a)|;
        var k := if size <= drop then size else drop;
        RemoveTail(a, k);
        SweptOne(q0, before, queue, locals, rest, a, drop == k);
        SweptLatest(q0, before, queue, locals, rest, beats, a);
        drop, rest := drop - k, rest - {a};
      }
      SweptAll(q0, queue, locals, rest, drop == 0);
      if drop > 0 {
        NobodyElse();
      }
    }

    /** The accounts of `promoteExecutables`, one after the other, in any order. */
    method PromoteAccounts(accounts: set<Addr>)
      requires Valid()
      modifies this`queue, this`all, this`pending, this`virtual, priced
      ensures Valid()
      ensures AllAdvanced(old(pending), old(queue), old(virtual), pending, queue, virtual, accounts, nonces, balances,
                          maxGas, locals, accountQueue)
      ensures StepsFrom(old(pending), old(virtual))
      ensures old(Settled(queue, nonces, virtual, accounts)) ==> Settled(queue, nonces, virtual, {})
      ensures all <= old(all)
      ensures old(Skew()) == 0 ==> Skew() == 0
    {
      hide Sound, Of, Steps, Elsewhere, Advanced, AllAdvanced, Settled, Expected, Reached, Clean;
      ghost var p0, q0, v0 := pending, queue, virtual;
      var rest := accounts;
      ghost var done: set<Addr> := {};
      NoSteps(pending, virtual, nonces, balances, maxGas);
      NoneAdvanced(p0, q0, v0, nonces, balances, maxGas, locals, accountQueue);
      while rest != {}
        invariant Valid() && done + rest == accounts && done !! rest
        invariant AllAdvanced(p0, q0, v0, pending, queue, virtual, done, nonces, balances, maxGas, locals, accountQueue)
        invariant StepsFrom(old(pending), old(virtual))
        invariant old(Settled(queue, nonces, virtual, accounts)) ==> Settled(queue, nonces, virtual, rest)
        invariant all <= old(all)
        invariant old(Skew()) == 0 ==> Skew() == 0
        decreases rest
      {
        var a :| a in rest;
        ghost var p1, q1, v1 := pending, queue, virtual;
        PromoteAccount(a);
        OneAdvanced(p0, q0, v0, p1, q1, v1, pending, queue, virtual, done, nonces, balances, maxGas, locals,
                    accountQueue, a);
        MoreSteps(p0, v0, p1, v1, pending, virtual, nonces, balances, maxGas);
        if Settled(q1, nonces, v1, rest) { OneSettled(q1, v1, queue, virtual, nonces, rest, a); }
        rest, done := rest - {a}, done + {a};
      }
      assert done == accounts;
    }

    /** `promoteExecutables` for some accounts: their lists advance; then the pending lists are
        truncated fairly, and the queues to the limit on all of them. Local accounts only advance. */
    method PromoteExecutables(accounts: set<Addr>) returns (ghost mid: Held)
      requires Valid()
      modifies this`queue, this`all, this`pending, this`virtual, priced
      ensures Valid() && all <= old(all) && StepsFrom(old(pending), old(virtual))
      ensures old(Contiguous(pending, nonces, virtual)) ==> Contiguous(pending, nonces, virtual)
      ensures old(Contiguous(pending, nonces, virtual)) && old(Settled(queue, nonces, virtual, accounts)) ==>
                Settled(queue, nonces, virtual, {})
      ensures old(StaleOnly(queue, nonces, accounts)) ==> NoneStale(queue, nonces)
      ensures Promoted(Given(), old(Now()), mid, Now(), accounts)
      ensures forall a :: a in accounts && a !in locals ==> |Of(queue, a)| <= accountQueue
      ensures forall tx :: tx in old(all) && tx.sender in locals && tx !in all ==>
                tx.sender in accounts && (tx.nonce < nonces(tx.sender) || !Affordable(tx, balances(tx.sender), maxGas))
      ensures old(Skew()) == 0 ==> Skew() == 0
    {
      hide Sound, Of, Contiguous, Elsewhere, AllAdvanced, Settled, Swept, OneCut, Trimmed, StaleOnly, NoneStale, Total,
           Waits, Steps, CutTo, Places;
      ghost var p0, q0, v0, all0 := pending, queue, virtual, all;
      SoundPlaces();
      PromoteAccounts(accounts);
      ghost var p1, q1, v1, all1 := pending, queue, virtual, all;
      mid := Now();
      SoundPlaces();
      ghost var offenders, level := Truncate();
      OffendersOnly(p1, pending, offenders, locals);
      ghost var p2, v2 := pending, virtual;
      var beats: Addr -> nat := *;
      LimitQueue(beats);
      SoundPlaces();
      MoreSteps(p0, v0, p1, v1, p2, v2, nonces, balances, maxGas);
      StepsContiguous(p0, v0, p1, v1, nonces, balances, maxGas);
      StepsContiguous(p1, v1, p2, v2, nonces, balances, maxGas);
      AfterLimits(p0, q0, v0, p1, q1, v1, queue, accounts, nonces, balances, maxGas, locals, accountQueue);
      LocalsStay(p0, q0, v0, all0, p1, q1, v1, p2, queue, all, accounts, nonces, balances, maxGas, locals, accountQueue,
                 offenders);
      if Contiguous(p1, nonces, v1) && Contiguous(p2, nonces, v2) && Settled(q1, nonces, v1, {}) {
        StillSettled(p1, q1, all1, nonces, v1, p2, queue, v2, locals, offenders);
      }
    }

    /** Transactions that have been taken off the heap leave the pool. */
    method RemoveAll(txs: seq<Tx>)
      requires Sound({}, SetOf(txs))
      modifies this`queue, this`all, this`pending, this`virtual, priced
      ensures Valid() && all == old(all) - SetOf(txs)
      ensures old(Ordered()) ==> Ordered() && KeepWaiting(old(queue), old(virtual), queue, virtual, nonces)
      ensures StepsFrom(old(pending), old(virtual))
      ensures priced.items == old(priced.items) && priced.stales == old(priced.stales)
    {
      hide Sound, Contiguous, NoneStale, KeepWaiting, CutAt, Set, Steps;
      NoSteps(pending, virtual, nonces, balances, maxGas);
      DropNone(txs, SetOf(txs), all);
      SameWaits(queue, virtual, nonces);
      var i := 0;
      while i < |txs|
        invariant 0 <= i <= |txs| && Sound({}, SetOf(txs) - SetOf(txs[..i])) && all == old(all) - SetOf(txs[..i])
        invariant old(Ordered()) ==> Ordered() && KeepWaiting(old(queue), old(virtual), queue, virtual, nonces)
        invariant StepsFrom(old(pending), old(virtual))
        invariant priced.items == old(priced.items) && priced.stales == old(priced.stales)
      {
        ghost var p1, q1, v1 := pending, queue, virtual;
        OneMore(txs, i, SetOf(txs), old(all));
        RemoveTx(txs[i], false, SetOf(txs) - SetOf(txs[..i]));
        MoreSteps(old(pending), old(virtual), p1, v1, pending, virtual, nonces, balances, maxGas);
        WaitOn(old(queue), old(virtual), q1, v1, queue, virtual, nonces);
        i := i + 1;
      }
      assert txs[..i] == txs;
      assert SetOf(txs) - SetOf(txs) == {};
    }

    /** Makes room in a full pool: the cheapest transactions that are not local go, unless the new
        one is no dearer than everything there. The counter of stale entries goes wrong if two
        entries of one transaction are among the cheapest, and only then. */
    method MakeRoom(tx: Tx, local: bool, ghost but: set<Addr>) returns (ok: bool, ghost drop: seq<Tx>)
      requires Valid()
      modifies this`queue, this`all, this`pending, this`virtual, priced
      ensures Valid() && ok == !old(TooCheap(Given(), all, locals, tx, local)) && locals == old(locals)
      ensures if ok then RoomMade(Given(), old(Now()), Now(), drop) else drop == [] && Now() == old(Now())
      ensures ok && !old(Risky()) ==>
                |all| < globalSlots + globalQueue || forall x :: x in all ==> x.sender in locals
      ensures old(Ordered()) ==> Ordered()
      ensures old(Ordered()) && old(Settled(queue, nonces, virtual, but)) ==> Settled(queue, nonces, virtual, but)
      ensures Skew() == old(Skew()) || (ok && old(Risky()))
      ensures ok && old(Doomed()) ==> Skew() > old(Skew())
    {
      hide Sound, Skew, Contiguous, NoneStale, KeepWaiting, Cheapest, MayMiscount, MustMiscount, Steps, RoomMade,
           TooCheap, Settled;
      ghost var h0 := Now();
      NoMiscounts(priced.items, all, locals, Excess());
      drop := [];
      if |all| < globalSlots + globalQueue {
        NoRoomNeeded(Given(), h0, tx, local);
        return true, drop;
      }
      var under := IsTooCheap(tx, local);
      if under {
        return false, drop;
      }
      ok := true;
      drop := DiscardCheapest(|all| - (globalSlots + globalQueue - 1));
      RoomIsMade(Given(), h0, Now(), drop);
      if Settled(h0.queue, nonces, h0.virtual, but) && KeepWaiting(h0.queue, h0.virtual, queue, virtual, nonces) {
        SettledOn(h0.queue, h0.virtual, queue, virtual, nonces, but);
      }
    }

    /** Whether a full pool has nothing cheaper than a transaction. Stale entries go from the top of
        the heap; they make no difference. */
    method IsTooCheap(tx: Tx, local: bool) returns (under: bool)
      requires Valid() && |all| >= globalSlots + globalQueue
      modifies priced
      ensures Valid() && under == TooCheap(Given(), all, locals, tx, local) && Skew() == old(Skew())
      ensures Risky() == old(Risky()) && Doomed() == old(Doomed())
    {
      hide Places, NoEmpty, IsPriceHeap, Covers, MayMiscount, MustMiscount;
      under := false;
      if !local {
        assert all - {} == all;
        under := priced.Underpriced(tx, locals, all);
        SameMiscounts(old(priced.items), priced.items, all, locals, Excess());
      }
    }

    /** How many transactions have to go from a full pool for a new one. */
    ghost function Excess(): int
      reads this
    {
      |all| - (globalSlots + globalQueue - 1)
    }

    /** Two entries of one transaction may be among those that go. */
    ghost predicate Risky()
      reads this, priced
    {
      MayMiscount(priced.items, all, locals, Excess())
    }

    /** Two entries of one transaction are among those that go. */
    ghost predicate Doomed()
      reads this, priced
    {
      MustMiscount(priced.items, all, locals, Excess())
    }

    /** So many of the cheapest transactions that are not local go. */
    method DiscardCheapest(count: nat) returns (ghost drop: seq<Tx>)
      requires Valid()
      modifies this`queue, this`all, this`pending, this`virtual, priced
      ensures Valid() && all == old(all) - SetOf(drop) && Cheapest(drop, old(all), locals)
      ensures !old(MayMiscount(priced.items, all, locals, count)) ==>
                |all| <= |old(all)| - count || forall x :: x in all ==> x.sender in locals
      ensures old(Ordered()) ==> Ordered() && KeepWaiting(old(queue), old(virtual), queue, virtual, nonces)
      ensures StepsFrom(old(pending), old(virtual))
      ensures Skew() == old(Skew()) || old(MayMiscount(priced.items, all, locals, count))
      ensures old(MustMiscount(priced.items, all, locals, count)) ==> Skew() > old(Skew())
    {
      hide Places, NoEmpty, IsPriceHeap, Covers, Contiguous, NoneStale, KeepWaiting, Single, Before, MayMiscount,
           MustMiscount, Steps;
      assert all - {} == all;
      var out := priced.Discard(count, locals, all);
      drop := out;
      RemoveAll(out);
      DropSize(out, old(all));
    }

    /** A dearer transaction takes the place of a pending one. */
    method Replace(tx: Tx) returns (ok: bool)
      requires Valid() && tx !in all && Has(pending, tx.sender, tx.nonce)
      requires nonces(tx.sender) <= tx.nonce && Affordable(tx, balances(tx.sender), maxGas)
      modifies this`pending, this`all, priced
      ensures Valid()
      ensures ok == Outbids(old(pending)[tx.sender][tx.nonce], tx, priceBump)
      ensures ok ==> pending == Put(old(pending), tx) && all == old(all) - {old(pending)[tx.sender][tx.nonce]} + {tx}
      ensures !ok ==> pending == old(pending) && all == old(all)
      ensures StepsFrom(old(pending), old(virtual))
      ensures old(Skew()) == 0 ==> Skew() == 0
    {
      hide Places, NoEmpty, IsPriceHeap, Covers, PoolPlaces.Put, Steps, Affordable;
      NoSteps(pending, virtual, nonces, balances, maxGas);
      var prior := pending[tx.sender][tx.nonce];
      ok := Outbids(prior, tx, priceBump);
      if ok {
        ReplacePending(pending, queue, all, tx);
        PutNoEmpty(pending, tx);
        SwapSteps(pending, virtual, nonces, balances, maxGas, tx);
        Unindex(prior);
        pending := Put(pending, tx);
        Index(tx);
      }
    }

    /** `add`: a new transaction that passes the checks replaces one with its nonce, or is queued. In
        a full pool cheaper ones have to go first. */
    method Add(tx: Tx, local: bool, ghost but: set<Addr>) returns (r: PoolError, replaced: bool, ghost drop: seq<Tx>)
      requires Valid()
      modifies this`queue, this`all, this`pending, this`virtual, this`locals, priced
      ensures Valid() && Admitted(Given(), old(Now()), tx, local, r, replaced, Now())
      ensures Cheapest(drop, old(all), old(locals)) && (|old(all)| < globalSlots + globalQueue ==> drop == [])
      ensures forall x :: x in old(all) && x !in all ==>
                x in drop || (r == Accepted && replaced && SameNonce(x, tx) && Outbids(x, tx, priceBump))
      ensures r == Accepted && !old(Risky()) ==>
                |all| <= globalSlots + globalQueue || forall x :: x in all && x != tx ==> x.sender in old(locals)
      ensures old(Ordered()) ==> Ordered()
      ensures old(Ordered()) && old(Settled(queue, nonces, virtual, but)) ==>
                Settled(queue, nonces, virtual, if r == Accepted && !replaced then but + {tx.sender} else but)
      ensures old(Skew()) == 0 && !old(Risky()) ==> Skew() == 0
    {
      hide Sound, Contiguous, NoneStale, Cheapest, Settled, Outbids, TooCheap, Risky, Steps, Refused, Admitted;
      drop, replaced := [], false;
      NoneDropped(all, locals);
      if tx in all {
        NotAdmitted(Given(), Now(), tx, local, Known);
        return Known, false, drop;
      }
      var why := Refused(Given(), locals, tx, local);
      if why.Some? {
        NotAdmitted(Given(), Now(), tx, local, Invalid(why.value));
        return Invalid(why.value), false, drop;
      }
      r, replaced, drop := AddValid(tx, local, but);
    }

    /** A new transaction that has passed the checks. */
    method AddValid(tx: Tx, local: bool, ghost but: set<Addr>)
      returns (r: PoolError, replaced: bool, ghost drop: seq<Tx>)
      requires Valid() && tx !in all && Passes(Given(), locals, tx, local)
      modifies this`queue, this`all, this`pending, this`virtual, this`locals, priced
      ensures Valid() && Admitted(Given(), old(Now()), tx, local, r, replaced, Now())
      ensures Cheapest(drop, old(all), old(locals)) && (|old(all)| < globalSlots + globalQueue ==> drop == [])
      ensures forall x :: x in old(all) && x !in all ==>
                x in drop || (r == Accepted && replaced && SameNonce(x, tx) && Outbids(x, tx, priceBump))
      ensures r == Accepted && !old(Risky()) ==>
                |all| <= globalSlots + globalQueue || forall x :: x in all && x != tx ==> x.sender in old(locals)
      ensures old(Ordered()) ==> Ordered()
      ensures old(Ordered()) && old(Settled(queue, nonces, virtual, but)) ==>
                Settled(queue, nonces, virtual, if r == Accepted && !replaced then but + {tx.sender} else but)
      ensures old(Skew()) == 0 && !old(Risky()) ==> Skew() == 0
    {
      hide Sound, Contiguous, NoneStale, KeepWaiting, Cheapest, Settled, Outbids, TooCheap, In, Risky, Doomed, Skew,
           Steps, Passes, Admitted, RoomMade, Inserted;
      replaced := false;
      ghost var h0 := Now();
      NoneDropped(all, locals);
      var ok;
      ok, drop := MakeRoom(tx, local, but);
      ghost var h1 := Now();
      if !ok {
        r := Underpriced;
        NotAdmitted(Given(), Now(), tx, local, r);
        return;
      }
      RoomFacts(Given(), h0, h1, drop, tx, local);
      r, replaced := Insert(tx, but);
      ghost var h2 := Now();
      if r == Accepted && local && In(queue, tx) {
        MarkLocal(tx.sender);
      }
      IsAdmitted(Given(), h0, h1, h2, Now(), tx, local, r, replaced, drop);
    }

    /** An account is local from now on. */
    method MarkLocal(a: Addr)
      requires Valid()
      modifies this`locals
      ensures Valid() && locals == old(locals) + {a} && Skew() == old(Skew())
    {
      hide Places, NoEmpty, IsPriceHeap, Covers;
      locals := locals + {a};
    }

    /** The second half of `add`: into a pending list as a replacement, or into the queue. */
    method Insert(tx: Tx, ghost but: set<Addr>) returns (r: PoolError, replaced: bool)
      requires Valid() && tx !in all && nonces(tx.sender) <= tx.nonce && Affordable(tx, balances(tx.sender), maxGas)
      modifies this`queue, this`all, this`pending, priced
      ensures Valid() && Inserted(Given(), old(Now()), Now(), tx, r, replaced)
      ensures old(Ordered()) ==> Ordered()
      ensures old(Settled(queue, nonces, virtual, but)) ==>
                Settled(queue, nonces, virtual, if r == Accepted && !replaced then but + {tx.sender} else but)
      ensures old(Skew()) == 0 ==> Skew() == 0
    {
      hide Sound, Places, Contiguous, NoneStale, Settled, Outbids, PoolPlaces.Put, Has, In, Steps, Affordable, Inserted;
      ghost var h := Now();
      SoundPlaces();
      PriorKnown(pending, queue, all, tx);
      if tx.sender in pending && tx.nonce in pending[tx.sender] {
        replaced := Replace(tx);
        r := if replaced then Accepted else ReplaceUnderpriced;
        StepsContiguous(h.pending, virtual, pending, virtual, nonces, balances, maxGas);
        InsertedPending(Given(), h, Now(), tx, replaced);
        return;
      }
      if NoneStale(queue, nonces) { PutFresh(queue, nonces, tx); }
      PutSettled(queue, nonces, virtual, but, tx);
      var ok;
      ok, replaced := EnqueueTx(tx);
      r := if ok then Accepted else ReplaceUnderpriced;
      InsertedQueued(Given(), h, Now(), tx, ok);
    }

    /** Pending nonces have no gaps, nothing queued is older than the state, and nothing that could
        be executed is left in a queue. */
    ghost predicate Steady()
      reads this
    {
      Ordered() && Settled(queue, nonces, virtual, {})
    }

    /** `addTx`: a transaction is added, and its account's queue is looked at again. A local account
        loses only what is too old, cannot be paid for, or is outbid. */
    method AddTx(tx: Tx, local: bool) returns (r: PoolError, ghost replaced: bool, ghost added: Held, ghost mid: Held)
      requires Valid()
      modifies this`queue, this`all, this`pending, this`virtual, this`locals, priced
      ensures Valid() && (old(Steady()) ==> Steady())
      ensures Admitted(Given(), old(Now()), tx, local, r, replaced, added)
      ensures if r == Accepted && !replaced then Promoted(Given(), added, mid, Now(), {tx.sender}) else Now() == added
      ensures forall x :: x in old(all) && x !in all && x.sender in old(locals) ==>
                || (r == Accepted && SameNonce(x, tx) && Outbids(x, tx, priceBump))
                || (x.sender == tx.sender && !Affordable(x, balances(x.sender), maxGas)) || x.nonce < nonces(x.sender)
      ensures old(Skew()) == 0 && !old(Risky()) ==> Skew() == 0
    {
      hide Sound, Contiguous, NoneStale, StaleOnly, Single, Settled, Outbids, Affordable, Skew, Total, Of, Admitted,
           Promoted, Cheapest, Risky;
      ghost var drop;
      var again;
      r, again, drop := Add(tx, local, {});
      replaced, added, mid := again, Now(), Now();
      LocalsKept(Given(), old(Now()), tx, local, r, replaced, added);
      if r == Accepted && !again {
        assert {} + {tx.sender} == {tx.sender};
        if NoneStale(queue, nonces) { FreshIsStaleOnly(queue, nonces, {tx.sender}); }
        mid := PromoteExecutables({tx.sender});
      }
    }

    /** `addTxs`: transactions are added one after the other; then the queues of all accounts that
        have got something new are looked at again. A local account loses only what is too old,
        cannot be paid for, or is outbid. */
    method AddTxs(txs: seq<Tx>, local: bool) returns (rs: seq<PoolError>, ghost b: Batch)
      requires Valid()
      modifies this`queue, this`all, this`pending, this`virtual, this`locals, priced
      ensures Valid() && (old(Steady()) ==> Steady()) && StepsFrom(old(pending), old(virtual))
      ensures rs == b.rs && Batched(Given(), old(Now()), txs, local, b, Now())
      ensures forall x :: x in old(all) && x !in all && x.sender in old(locals) ==>
                || Overbid(x, txs, rs, priceBump) || !Affordable(x, balances(x.sender), maxGas)
                || x.nonce < nonces(x.sender)
      ensures (txs == [] ==> Now() == old(Now())) && (!local ==> locals == old(locals))
      ensures old(Skew()) == 0 && old(Calm(Given(), Now(), |txs|, local)) ==> Skew() == 0
    {
      hide Sound, Contiguous, NoneStale, StaleOnly, Single, Settled, Outbids, Affordable, Skew, Total, Of, Cheapest,
           Admitted, Promoted, Chained, Steps, Overbid, Batched, ChainEnd, DirtyOf, Calm, Risky;
      var dirty;
      rs, dirty, b := AddEach(txs, local);
      ghost var h := Now();
      ghost var mid := h;
      if dirty != {} {
        if NoneStale(queue, nonces) { FreshIsStaleOnly(queue, nonces, dirty); }
        mid := PromoteExecutables(dirty);
        MoreSteps(old(pending), old(virtual), h.pending, h.virtual, pending, virtual, nonces, balances, maxGas);
      }
      Ended(Given(), old(Now()), txs, local, b, mid, Now());
      b := b.(mid := mid);
    }

    /** The transactions are added, and the accounts that have got something new are collected. */
    method AddEach(txs: seq<Tx>, local: bool) returns (rs: seq<PoolError>, dirty: set<Addr>, ghost b: Batch)
      requires Valid()
      modifies this`queue, this`all, this`pending, this`virtual, this`locals, priced
      ensures Valid() && |rs| == |txs| && b.rs == rs && Chained(Given(), old(Now()), txs, local, b)
      ensures ChainEnd(b) == Now() && dirty == DirtyOf(txs, b)
      ensures StepsFrom(old(pending), old(virtual)) && (txs == [] ==> Now() == old(Now()) && dirty == {})
      ensures old(Steady()) ==> Ordered() && Settled(queue, nonces, virtual, dirty)
      ensures forall x :: x in old(all) && x !in all && x.sender in old(locals) ==> Overbid(x, txs, rs, priceBump)
      ensures old(locals) <= locals && (!local ==> locals == old(locals))
      ensures old(Skew()) == 0 && old(Calm(Given(), Now(), |txs|, local)) ==> Skew() == 0
    {
      hide Sound, Contiguous, NoneStale, Settled, Outbids, Affordable, Skew, Of, Cheapest, Admitted, Chained, Steps,
           Overbid, ChainEnd, DirtyOf, Calm, Risky;
      rs, dirty := [], {};
      ghost var right := Skew() == 0 && Calm(Given(), Now(), |txs|, local);
      b := Batch([], [], [Now()], Now());
      NothingBatched(Given(), Now(), txs, local);
      NoSteps(pending, virtual, nonces, balances, maxGas);
      while |rs| < |txs|
        invariant Valid() && |rs| <= |txs| && b.rs == rs && Chained(Given(), old(Now()), txs, local, b)
        invariant ChainEnd(b) == Now() && dirty == DirtyOf(txs, b)
        invariant StepsFrom(old(pending), old(virtual)) && (rs == [] ==> Now() == old(Now()) && dirty == {})
        invariant old(Steady()) ==> Ordered() && Settled(queue, nonces, virtual, dirty)
        invariant forall x :: x in old(all) && x !in all && x.sender in old(locals) ==> Overbid(x, txs, rs, priceBump)
        invariant old(locals) <= locals && (!local ==> locals == old(locals))
        invariant right ==> Skew() == 0 && Calm(Given(), Now(), |txs| - |rs|, local)
      {
        NeverRisky();
        var tx := txs[|rs|];
        ghost var drop;
        ghost var h := Now();
        var r, again;
        r, again, drop := Add(tx, local, dirty);
        OneBatched(Given(), old(Now()), txs, local, b, r, again, Now());
        if right {
          StaysCalm(Given(), h, |txs| - |rs|, tx, local, r, again, Now());
        }
        b := Extended(b, r, again, Now());
        AdmittedSteps(Given(), old(Now()), h, tx, local, r, again, Now());
        LocalsOverbid(Given(), old(Now()), h, txs, local, rs, r, again, Now());
        if r == Accepted && !again {
          dirty := dirty + {tx.sender};
        }
        rs := rs + [r];
      }
    }

    /** Within the capacity one transaction has to go at most. */
    lemma NeverRisky()
      ensures |all| <= globalSlots + globalQueue ==> !Risky()
    {
    }

    /** `SetGasPrice`: exactly the transactions below the new price go, but for local ones. The
        counter of stale entries stays right if and only if none of these has two entries. */
    method SetGasPrice(price: nat)
      requires Valid()
      modifies this`gasPrice, this`queue, this`all, this`pending, this`virtual, priced
      ensures Valid() && (old(Steady()) ==> Steady()) && gasPrice == price
      ensures forall x :: x in all <==> x in old(all) && (x.sender in locals || x.price >= price)
      ensures Skew() >= old(Skew())
      ensures Skew() == old(Skew()) <==> forall x :: old(Doubled(priced.items, all, locals, x)) ==> x.price >= price
    {
      hide Places, NoEmpty, IsPriceHeap, Covers, Contiguous, NoneStale, KeepWaiting, Single, Settled;
      gasPrice := price;
      assert all - {} == all;
      ghost var q0, v0 := queue, virtual;
      var drop := priced.Cap(price, locals, all);
      RemoveAll(drop);
      DropSize(drop, old(all));
      SingleCopies(drop, old(priced.items), old(all), locals);
      if Settled(q0, nonces, v0, {}) && KeepWaiting(q0, v0, queue, virtual, nonces) {
        SettledOn(q0, v0, queue, virtual, nonces, {});
      }
    }

    /** Part of a pending list is dropped. */
    method DropPending(a: Addr, g: Slots, m: Slots)
      requires Valid() && Part(g, Of(pending, a)) && Without(Of(pending, a), g, m) && Keyed(g)
      modifies this`pending, this`all, priced
      ensures Valid() && pending == Set(old(pending), a, m) && all == old(all) - Values(g)
      ensures old(Skew()) == 0 ==> Skew() == 0
    {
      hide Places, NoEmpty, IsPriceHeap, Covers, Values, Set, Part, Without;
      TakePending(pending, queue, all, {}, a, g, m);
      SetNoEmpty(pending, a, m);
      pending := Set(pending, a, m);
      var txs := Flat(g);
      assert {} + Values(g) == Values(g);
      Drop(txs, Values(g));
      assert Values(g) - SetOf(txs) == {};
    }

    /** Part of a pending list goes back to the queue. */
    method QueuePending(a: Addr, g: Slots, m: Slots)
      requires Valid() && Part(g, Of(pending, a)) && Without(Of(pending, a), g, m) && Keyed(g)
      modifies this`pending, this`queue
      ensures Valid() && pending == Set(old(pending), a, m)
    {
      hide Places, NoEmpty, IsPriceHeap, Covers, Values, Set, Part, Without;
      TakePending(pending, queue, all, {}, a, g, m);
      SetNoEmpty(pending, a, m);
      pending := Set(pending, a, m);
      var txs := Flat(g);
      assert {} + Values(g) == Values(g);
      RequeueAll(txs, Values(g), {});
      assert Values(g) - SetOf(txs) == {};
    }

    /** One account of `demoteUnexecutables`: what is too old or cannot be paid for is dropped, what
        comes after the latter is queued again, and so is everything when the first nonce is missing. */
    method DemoteAccount(a: Addr)
      requires Valid()
      modifies this`pending, this`queue, this`all, priced
      ensures Valid() && Elsewhere(old(pending), pending, a)
      ensures Of(pending, a) == Demoted(Of(old(pending), a), nonces(a), balances(a), maxGas)
      ensures all == old(all) - Values(Below(Of(old(pending), a), nonces(a)))
                     - Values(Unpaid(From(Of(old(pending), a), nonces(a)), balances(a), maxGas))
      ensures old(Skew()) == 0 ==> Skew() == 0
    {
      hide Sound, Of, Elsewhere, Values, From, Below, Paid, Unpaid, Kept, Keyed, Places;
      var n := nonces(a);
      var f := From(Of(pending, a), n);
      SoundPlaces();
      KeyedOf(pending, queue, all, a);
      CleanParts(Of(pending, a), n, balances(a), maxGas);
      ghost var p0 := pending;
      DropUnfit(a);
      ghost var p1 := pending;
      var kept := QueueStranded(a, f);
      ElsewhereBoth(p0, p1, pending, a);
      ghost var p2 := pending;
      if |kept| > 0 && n !in kept {
        QueueRest(a);
        ElsewhereBoth(p0, p2, pending, a);
      }
    }

    /** What is too old or cannot be paid for leaves a pending list. */
    method DropUnfit(a: Addr)
      requires Valid()
      modifies this`pending, this`all, priced
      ensures Valid() && Elsewhere(old(pending), pending, a)
      ensures var f := From(Of(old(pending), a), nonces(a));
              && Of(pending, a) == Paid(f, balances(a), maxGas)
              && all == old(all) - Values(Below(Of(old(pending), a),
                                                nonces(a))) - Values(Unpaid(f, balances(a), maxGas))
      ensures old(Skew()) == 0 ==> Skew() == 0
    {
      hide Sound, Of, Set, Elsewhere, Values, From, Below, Paid, Unpaid, Part, Without, Keyed, Places;
      var n, cost := nonces(a), balances(a);
      var m := Of(pending, a);
      ghost var p0 := pending;
      SoundPlaces();
      KeyedOf(pending, queue, all, a);
      CleanParts(m, n, cost, maxGas);
      var f := From(m, n);
      DropPending(a, Below(m, n), f);
      ElsewhereSet(p0, a, f);
      ghost var p1 := pending;
      DropPending(a, Unpaid(f, cost, maxGas), Paid(f, cost, maxGas));
      ElsewhereSet(p1, a, Paid(f, cost, maxGas));
      ElsewhereBoth(p0, p1, pending, a);
    }

    /** What comes after the first that could not be paid for is queued again. */
    method QueueStranded(a: Addr, f: Slots) returns (kept: Slots)
      requires Valid() && Of(pending, a) == Paid(f, balances(a), maxGas) && Keyed(f)
      modifies this`pending, this`queue
      ensures Valid() && Elsewhere(old(pending), pending, a)
      ensures kept == Kept(f, true, balances(a), maxGas) && Of(pending, a) == kept
    {
      hide Sound, Of, Set, Elsewhere, Paid, Kept, Stranded, Part, Without, Keyed;
      DemoteParts(f, balances(a), maxGas);
      ElsewhereSet(pending, a, Kept(f, true, balances(a), maxGas));
      var stranded;
      kept, stranded := SplitStrict(f, balances(a), maxGas);
      QueuePending(a, stranded, kept);
    }

    /** A whole pending list is queued again. */
    method QueueRest(a: Addr)
      requires Valid()
      modifies this`pending, this`queue
      ensures Valid() && Elsewhere(old(pending), pending, a) && Of(pending, a) == map[]
    {
      hide Sound, Of, Set, Elsewhere, Part, Without, Keyed, Places;
      SoundPlaces();
      KeyedOf(pending, queue, all, a);
      AllParts(Of(pending, a));
      ElsewhereSet(pending, a, map[]);
      QueuePending(a, Of(pending, a), map[]);
    }

    /** `demoteUnexecutables`: only what is too old or cannot be paid for leaves the pool. */
    method Demote()
      requires Valid()
      modifies this`pending, this`queue, this`all, priced
      ensures Valid() && AllDemoted(old(pending), pending, pending.Keys + old(pending).Keys, nonces, balances, maxGas)
      ensures JustlyLost(old(all), all, nonces, balances, maxGas)
      ensures old(Skew()) == 0 ==> Skew() == 0
    {
      hide Sound, Of, Elsewhere, Values, From, Below, Unpaid, JustlyLost, Demoted, AllDemoted, Places, Skew;
      ghost var p0 := pending;
      ghost var done: set<Addr> := {};
      var rest := pending.Keys;
      NoneDemoted(pending, all, nonces, balances, maxGas);
      while rest != {}
        invariant Valid() && done + rest == p0.Keys && done !! rest
        invariant AllDemoted(p0, pending, done, nonces, balances, maxGas)
        invariant JustlyLost(old(all), all, nonces, balances, maxGas)
        invariant old(Skew()) == 0 ==> Skew() == 0
        decreases rest
      {
        var a :| a in rest;
        ghost var p1 := pending;
        SoundPlaces();
        LostOf(pending, queue, old(all), all, a, nonces, balances, maxGas);
        DemoteAccount(a);
        OneDemoted(p0, p1, pending, done, nonces, balances, maxGas, a);
        rest, done := rest - {a}, done + {a};
      }
      assert done == p0.Keys;
      MoreDemoted(p0, pending, done, nonces, balances, maxGas);
    }

    /** The pool expects what follows the last pending transaction of each account. */
    method RaiseNonces()
      requires Valid()
      modifies this`virtual
      ensures Valid() && virtual.Keys == old(virtual).Keys + pending.Keys
      ensures forall a :: a in virtual ==> virtual[a] == if a in pending then Above(pending[a]) else old(virtual)[a]
    {
      hide Places, IsPriceHeap, Covers, Above, Order, Keyed;
      var rest := pending.Keys;
      while rest != {}
        invariant Valid() && rest <= pending.Keys
        invariant virtual.Keys == old(virtual).Keys + (pending.Keys - rest)
        invariant forall a :: a in virtual ==> virtual[a] == if a in pending && a !in rest then Above(pending[a])
                                               else old(virtual)[a]
        decreases rest
      {
        var a :| a in rest;
        KeyedOf(pending, queue, all, a);
        var txs := Flat(pending[a]);
        LastAbove(pending[a], txs);
        virtual, rest := virtual[a := txs[|txs| - 1].nonce + 1], rest - {a};
      }
    }

    /** `reset` to the state of a new head, with the transactions of blocks that have been given up:
        these are added again, pending lists are demoted, nonces raised and all queues promoted.
        The pending nonces of an account whose nonce has not fallen end without gaps, from the
        state's nonce to the one expected next, if and only if nothing pending that the state has
        passed had to make room for what came back; else nothing is pending, and a passed nonce is
        expected. All is well when the account's nonce is the same. Those of an account whose nonce
        has fallen end so if they have no gap that matters once transactions have come back. Where
        there is room for all that comes back, every account ends so but those whose transactions
        are parted, which shows before the call. */
    method Reset(nonces: Addr -> nat, balances: Addr -> nat, maxGas: nat, reinject: seq<Tx>)
      returns (ghost b: Batch, ghost back: Held, ghost low: Held, ghost mid: Held)
      requires Valid()
      modifies this, priced
      ensures Valid() && this.nonces == nonces && this.balances == balances && this.maxGas == maxGas
              && locals == old(locals)
      ensures gasPrice == old(gasPrice)
      ensures Batched(Given(), old(Now()).(virtual := map[]), reinject, false, b, back)
      ensures Places(back.pending, back.queue, back.all, {})
      ensures Demotes(Given(), back, low) && Promoted(Given(), low, mid, Now(), low.queue.Keys)
      ensures NoneStale(queue, nonces)
      ensures reinject == [] && old(Contiguous(pending, this.nonces, virtual)) ==> Steady()
      ensures forall a :: old(Unbroken(pending, this.nonces, virtual, a)) && old(this.nonces)(a) <= nonces(a) ==>
                Settles(pending, virtual, nonces, a, Below(Of(back.pending, a), nonces(a)) ==
                          Below(Of(old(pending), a), nonces(a)))
      ensures forall a :: old(Unbroken(pending, this.nonces, virtual, a)) && old(this.nonces)(a) == nonces(a) ==>
                Unbroken(pending, nonces, virtual, a)
      ensures |old(all)| + |reinject| <= globalSlots ==>
                forall a :: old(Unbroken(pending, this.nonces, virtual, a)) && old(this.nonces)(a) <= nonces(a) ==>
                  Unbroken(pending, nonces, virtual, a)
      ensures forall a ::
                && Gapless(Of(back.pending, a), nonces(a), balances(a), maxGas)
                && (a !in low.pending ==> Expected(nonces, back.virtual, a) == nonces(a)) ==>
                  Unbroken(pending, nonces, virtual, a)
      ensures |old(all)| + |reinject| <= globalSlots && old(NoneStale(queue, this.nonces)) ==>
                forall a :: old(Unbroken(pending, this.nonces, virtual, a)) ==>
                  (Unbroken(pending, nonces, virtual, a) <==>
                   !Parted(Given(), old(pending), locals, reinject, a, old(this.nonces)(a)))
      ensures forall tx :: tx in old(all) && tx.sender in locals && tx !in all ==>
                || Overbid(tx, reinject, b.rs, priceBump)
                || tx.nonce < nonces(tx.sender) || !Affordable(tx, balances(tx.sender), maxGas)
      ensures old(Skew()) == 0 && old(Calm(Given(), Now(), |reinject|, false)) ==> Skew() == 0
    {
      hide Places, NoEmpty, IsPriceHeap, Covers, Contiguous, NoneStale, Settled, Total, Of, AllDemoted, JustlyLost,
           Affordable, StaleOnly, Gapless, Above, Steps, Batched, Promoted, Demotes, Unbroken, Settles, Overbid,
           PastKept, Parted;
      ghost var nonces0, v0, all0 := this.nonces, virtual, all;
      SoundPlaces();
      this.nonces, this.balances, this.maxGas, virtual := nonces, balances, maxGas, map[];
      ghost var h0 := Now();
      var rs;
      rs, b := AddTxs(reinject, false);
      back := Now();
      SoundPlaces();
      low := DemoteAll();
      EveryAccount(queue, nonces, virtual);
      mid := PromoteExecutables(queue.Keys);
      ResetDone(Given(), nonces0, v0, h0, reinject, b, back, low, Now());
      SoundPlaces();
      ResetReturns(Given(), nonces0, v0, h0, reinject, b, back, low, mid, Now());
    }

    /** Demotion, and the pool expects what follows the last pending transaction of each account. */
    method DemoteAll() returns (ghost low: Held)
      requires Valid()
      modifies this`pending, this`queue, this`all, this`virtual, priced
      ensures Valid() && low == Now() && Demotes(Given(), old(Now()), low)
      ensures old(Skew()) == 0 ==> Skew() == 0
    {
      hide Places, NoEmpty, IsPriceHeap, Covers, Of, AllDemoted, JustlyLost, Above;
      Demote();
      RaiseNonces();
      low := Now();
    }

    lemma SoundPlaces()
      requires Valid()
      ensures Places(pending, queue, all, {})
    {
    }

    lemma NobodyElse()
      requires Valid() && forall a :: a !in locals ==> Of(queue, a) == map[]
      ensures forall a :: a in queue ==> a in locals
    {
    }
  }
}
