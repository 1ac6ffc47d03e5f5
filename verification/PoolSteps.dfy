/**
 What single steps of the transaction pool do to its lists, and what they keep: the specifications
 of promotion, demotion, truncation and removal, with the lemmas that the pool's operations use.
 */
module PoolSteps {
  import opened Common
  import opened TxSortedMap
  import opened TxList
  import opened TxPriced
  import opened PoolPlaces
  import opened PoolNonces

  ghost predicate NoDup(txs: seq<Tx>) {
    forall i, j :: 0 <= i < j < |txs| ==> txs[i] != txs[j]
  }

  /** The transactions of a list in the order of nonces. */
  method Flat(m: Slots) returns (txs: seq<Tx>)
    requires Keyed(m)
    ensures txs == Order(m) && NoDup(txs) && SetOf(txs) == Values(m)
  {
    hide Order;
    var any := ListTxs(m);
    SortTxsOrder(any, m);
    txs := SortTxs(any);
    FlatFacts(m, txs);
  }

  lemma FlatFacts(m: Slots, txs: seq<Tx>)
    requires Keyed(m) && txs == Order(m)
    ensures NoDup(txs) && SetOf(txs) == Values(m) && |txs| == |m|
  {
    hide Order;
    OrderSize(m);
    forall i, j | 0 <= i < j < |txs| ensures txs[i] != txs[j] {
      OrderAscends(m, i, j);
    }
    forall tx ensures tx in txs <==> tx in Values(m) {
      OrderHas(m, tx);
      assert tx.nonce in m && m[tx.nonce] == tx ==> tx in Values(m);
    }
  }

  /** The number of transactions in all lists, added up account by account. */
  method CountAll(l: Lists) returns (n: nat)
    ensures n == Total(l)
  {
    hide Total;
    n := 0;
    var rest := l;
    while rest != map[]
      invariant n + Total(rest) == Total(l)
      decreases |rest|
    {
      var a :| a in rest;
      TotalSplit(rest, a);
      assert rest.Keys == (rest - {a}).Keys + {a};
      n, rest := n + |rest[a]|, rest - {a};
    }
    TotalNone();
  }

  /** How far queues have been swept: of an account at most the highest nonces are gone, nothing of
      local accounts and of those still to come; the others have nothing left, until it is done. */
  ghost predicate Swept(q0: Lists, q: Lists, locals: set<Addr>, rest: set<Addr>, done: bool) {
    forall a {:trigger Of(q, a)} ::
      && Lowest(Of(q0, a), Of(q, a))
      && (a in locals || a in rest ==> Of(q, a) == Of(q0, a))
      && (!done && a !in locals && a !in rest ==> Of(q, a) == map[])
  }

  /** Of two queues that have lost anything, one is gone. */
  ghost predicate OneCut(q0: Lists, q: Lists) {
    forall a, b {:trigger Of(q, a), Of(q, b)} ::
      a != b && Of(q, a) != Of(q0, a) && Of(q, b) != Of(q0, b) ==> Of(q, a) == map[] || Of(q, b) == map[]
  }

  lemma NotSwept(q: Lists, locals: set<Addr>, rest: set<Addr>)
    ensures Swept(q, q, locals, rest, true) && OneCut(q, q)
    ensures (forall a :: a in q && a !in locals ==> a in rest) ==> Swept(q, q, locals, rest, false)
  {
  }

  lemma SweptOne(q0: Lists, q: Lists, q': Lists, locals: set<Addr>, rest: set<Addr>, a: Addr, done: bool)
    requires Swept(q0, q, locals, rest, false) && a in rest && a !in locals
    requires Elsewhere(q, q', a) && Lowest(Of(q, a), Of(q', a)) && (done || |Of(q', a)| == 0)
    ensures Swept(q0, q', locals, rest - {a}, done) && OneCut(q0, q')
  {
    hide Lowest;
    assert Of(q, a) == Of(q0, a);
    forall x ensures x != a ==> Of(q', x) == Of(q, x) && (x !in locals && x !in rest ==> Of(q', x) == map[]) {
      assert Of(q, x) == Of(q, x);
    }
  }

  /** Accounts with later heartbeats lose all they have queued before others lose anything. */
  ghost predicate LatestFirst(q0: Lists, q: Lists, locals: set<Addr>, beats: Addr -> nat) {
    forall a, b {:trigger Of(q, a), Of(q, b)} ::
      a !in locals && b !in locals && beats(a) < beats(b) && Of(q, a) != Of(q0, a) ==> Of(q, b) == map[]
  }

  /** The heartbeats of the accounts still to come are not later. */
  ghost predicate Earlier(q0: Lists, locals: set<Addr>, rest: set<Addr>, beats: Addr -> nat) {
    forall a, b :: a in q0 && a !in locals && a !in rest && b in rest ==> beats(b) <= beats(a)
  }

  lemma SweptLatest(q0: Lists, q: Lists, q': Lists, locals: set<Addr>, rest: set<Addr>, beats: Addr -> nat, a: Addr)
    requires Swept(q0, q, locals, rest, false) && Elsewhere(q, q', a) && Earlier(q0, locals, rest, beats)
    requires a in rest && forall b :: b in rest ==> beats(b) <= beats(a)
    ensures LatestFirst(q0, q', locals, beats) && Earlier(q0, locals, rest - {a}, beats)
  {
    hide Lowest;
    forall x, y | x !in locals && y !in locals && beats(x) < beats(y) && Of(q', x) != Of(q0, x)
      ensures Of(q', y) == map[]
    {
      assert x != a ==> Of(q', x) == Of(q, x);
      assert y != a ==> Of(q', y) == Of(q, y);
      assert Of(q, x) == Of(q, x) && Of(q, y) == Of(q, y);
    }
  }

  lemma {:induction false} LatestExists(s: set<Addr>, beats: Addr -> nat) returns (a: Addr)
    requires s != {}
    ensures a in s && forall b :: b in s ==> beats(b) <= beats(a)
    decreases |s|
  {
    a :| a in s;
    if s != {a} {
      var b := LatestExists(s - {a}, beats);
      if beats(b) > beats(a) { a := b; }
    }
  }

  lemma SweptAll(q0: Lists, q: Lists, locals: set<Addr>, rest: set<Addr>, done: bool)
    requires Swept(q0, q, locals, rest, done)
    ensures Swept(q0, q, locals, {}, true)
    ensures !done && rest == {} ==> forall a :: a !in locals ==> Of(q, a) == map[]
  {
    hide Lowest;
    forall a ensures Lowest(Of(q0, a), Of(q, a))
    && (a in locals ==> Of(q, a) == Of(q0, a)) { assert Of(q, a) == Of(q, a); }
    forall a ensures !done && rest == {} && a !in locals ==> Of(q, a) == map[] { assert Of(q, a) == Of(q, a); }
  }

  /** The last transaction below a bound. */
  lemma TailStep(m: Slots, txs: seq<Tx>, i: nat, bound: nat)
    requires Keyed(m) && txs == Order(m) && i < |txs| && bound == (if i + 1 < |txs| then txs[i + 1].nonce else Above(m))
    ensures var n := txs[i].nonce;
            n in m && n in Below(m, bound) && m[n] == txs[i] && Below(m, bound) - {n} == Below(m, n)
  {
    hide Order;
    var n := txs[i].nonce;
    assert txs[i] in txs;
    OrderHas(m, txs[i]);
    assert n in Below(m, Above(m));
    if i + 1 < |txs| { OrderAscends(m, i, i + 1); }
    forall k | k in Below(m, bound) ensures k <= n {
      OrderHas(m, m[k]);
      var j :| 0 <= j < |txs| && txs[j] == m[k];
      if j > i + 1 { OrderAscends(m, i + 1, j); }
      if j < i { OrderAscends(m, j, i); }
    }
    HighestOut(m, bound, n);
  }

  lemma TailTx(queue: Lists, a: Addr, m: Slots, bound: nat, tx: Tx)
    requires Of(queue, a) == Below(m, bound) && tx.nonce in Below(m, bound) && m[tx.nonce] == tx && tx.sender == a
    ensures a in queue && queue[a] == Below(m, bound) && In(queue, tx)
    ensures |queue[a] - {tx.nonce}| == |Of(queue, a)| - 1
  {
    assert queue[a].Keys == (queue[a] - {tx.nonce}).Keys + {tx.nonce};
  }

  lemma TailLowest(m: Slots, txs: seq<Tx>, i: nat, bound: nat)
    requires Keyed(m) && txs == Order(m) && i <= |txs| && bound == (if i < |txs| then txs[i].nonce else Above(m))
    ensures |Below(m, bound)| == i && Lowest(m, Below(m, bound))
  {
    hide Order;
    if i < |txs| {
      CapSize(m, txs, i);
    } else {
      OrderSize(m);
    }
  }

  lemma ValidKeys(pending: Lists, queue: Lists, all: set<Tx>, a: Addr)
    requires Places(pending, queue, all, {})
    ensures Keyed(Of(queue, a)) && forall n :: n in Of(queue, a) ==> Of(queue, a)[n].sender == a
  {
    ProperLists(pending, queue, all, {});
  }

  /** The accounts to be cut back, those already being cut and those still to come. */
  ghost predicate Suspects(p0: Lists, locals: set<Addr>, slots: nat, offs: seq<Addr>, spammers: set<Addr>,
                           offenders: set<Addr>) {
    && Apart(offs) && Among(offs, offenders) && (forall a :: a in offenders ==> a in offs) && |offenders| == |offs|
    && spammers !! offenders
    && forall a :: a in spammers || a in offenders <==> a !in locals && |Of(p0, a)| > slots
  }

  function Smaller(m: nat, n: nat): nat {
    if m <= n then m else n
  }

  /** Longer lists are cut down to one level, but for local accounts. */
  ghost predicate CutTo(p0: Lists, p: Lists, locals: set<Addr>, level: nat) {
    forall a {:trigger Of(p, a)} :: a !in locals ==> |Of(p, a)| == Smaller(|Of(p0, a)|, level)
  }

  ghost predicate AtLevel(p0: Lists, p: Lists, accounts: set<Addr>, level: nat) {
    forall a {:trigger Of(p, a)} :: a in accounts ==> |Of(p, a)| == Smaller(|Of(p0, a)|, level)
  }

  /** How far the cutting has come: only offenders have lost anything, all of them still have more
      than the guarantee, nobody is beyond the level they have been cut to, and while there are too
      many transactions they are all equally long. */
  ghost predicate Level(p0: Lists, p: Lists, locals: set<Addr>, slots: nat, limit: nat, offs: seq<Addr>,
                        spammers: set<Addr>, offenders: set<Addr>, size: nat, total: nat)
  {
    && Suspects(p0, locals, slots, offs, spammers, offenders) && Trimmed(p0, p, offenders)
    && (forall a :: a in spammers ==> Of(p, a) == Of(p0, a))
    && (forall a :: a in offenders ==> |Of(p, a)| > slots)
    && (offs != [] ==> forall a :: a in spammers ==> |Of(p, a)| <= |Of(p, offs[|offs| - 1])|)
    && (offs != [] ==> size > slots && AtLevel(p0, p, spammers + offenders, size))
    && (total > limit && offs != [] ==> Even(p, offs, size))
  }

  lemma NoOffenders(p0: Lists, locals: set<Addr>, slots: nat, spammers: set<Addr>, limit: nat, total: nat)
    requires forall a :: a in spammers <==> a in p0 && a !in locals && |p0[a]| > slots
    ensures Level(p0, p0, locals, slots, limit, [], spammers, {}, 0, total)
  {
    TrimmedNone(p0);
  }

  lemma NextOffender(p0: Lists, p: Lists, locals: set<Addr>, slots: nat, offs: seq<Addr>, spammers: set<Addr>,
                     offenders: set<Addr>, next: Addr)
    requires Suspects(p0, locals, slots, offs, spammers, offenders) && next in spammers
    requires Trimmed(p0, p, offenders) && Of(p, next) == Of(p0, next)
    ensures Suspects(p0, locals, slots, offs + [next], spammers - {next}, offenders + {next})
    ensures Trimmed(p0, p, offenders + {next}) && |Of(p, next)| > slots
    ensures Apart(offs) && Among(offs, offenders + {next})
  {
    TrimmedMore(p0, p, offenders, offenders + {next});
  }

  /** What the next cut relies on. */
  lemma LevelFacts(p0: Lists, p: Lists, locals: set<Addr>, slots: nat, limit: nat, offs: seq<Addr>, spammers: set<Addr>,
                   offenders: set<Addr>, size: nat, total: nat, next: Addr)
    requires Level(p0, p, locals, slots, limit, offs, spammers, offenders, size, total) && total > limit
             && next in spammers
    ensures Apart(offs) && Among(offs, offenders + {next}) && Trimmed(p0, p, offenders + {next})
    ensures offs != [] ==> Even(p, offs, size) && |Of(p, next)| <= size
  {
    hide Of, Trimmed;
    NextOffender(p0, p, locals, slots, offs, spammers, offenders, next);
    if offs != [] { LastLength(p, offs, size); }
  }

  lemma NobodyEven(l: Lists, offs: seq<Addr>, size: nat)
    ensures offs == [] ==> Even(l, offs, size)
  {
  }

  lemma NextLevel(p0: Lists, p: Lists, p': Lists, locals: set<Addr>, slots: nat, limit: nat, offs: seq<Addr>,
                  spammers: set<Addr>, offenders: set<Addr>, size: nat, total: nat, next: Addr, size': nat, total': nat)
    requires Level(p0, p, locals, slots, limit, offs, spammers, offenders, size, total) && next in spammers
    requires forall a :: a in spammers ==> |Of(p, a)| <= |Of(p, next)|
    requires Trimmed(p0, p', offenders + {next}) && (forall a :: a !in offs ==> Of(p', a) == Of(p, a))
    requires Even(p', offs, size') && |Of(p, next)| <= size' && (total' > limit ==> size' == |Of(p, next)|)
    ensures Level(p0, p', locals, slots, limit, offs + [next], spammers - {next}, offenders + {next}, size', total')
  {
    hide Of, Trimmed, Suspects, Even, Apart, Among, AtLevel;
    NextOffender(p0, p, locals, slots, offs, spammers, offenders, next);
    SuspectsApart(p0, locals, slots, offs, spammers, offenders, next);
    AllReached(p0, locals, slots, p', offs, spammers, offenders, size');
    OneLevel(p0, p, p', spammers, offenders, next, size');
    if total' > limit { Levelled(p', offs, next, size'); }
  }

  /** Those cut to a level, and those that do not reach it, are at it. */
  lemma OneLevel(p0: Lists, p: Lists, p': Lists, spammers: set<Addr>, offenders: set<Addr>, next: Addr,
                 level: nat)
    requires Trimmed(p0, p', offenders + {next}) && next in spammers && |Of(p, next)| <= level
    requires forall a :: a in spammers ==> Of(p, a) == Of(p0, a) && |Of(p, a)| <= |Of(p, next)| && Of(p', a) == Of(p, a)
    requires forall a :: a in offenders ==> |Of(p', a)| == level
    ensures AtLevel(p0, p', spammers - {next} + (offenders + {next}), level)
  {
    hide Of, Trimmed;
    NoLonger(p0, p', offenders + {next});
  }

  lemma NoLonger(p0: Lists, p: Lists, accounts: set<Addr>)
    requires Trimmed(p0, p, accounts)
    ensures forall a :: |Of(p, a)| <= |Of(p0, a)|
  {
    hide Lowest, Of;
    forall a ensures |Of(p, a)| <= |Of(p0, a)| {
      if Lowest(Of(p0, a), Of(p, a)) { LowestSize(Of(p0, a), Of(p, a)); }
    }
  }

  lemma LowestSize(m: Slots, m': Slots)
    requires Lowest(m, m')
    ensures |m'| <= |m|
  {
    PartSize(m, m');
  }

  /** In the end everything that is not local is cut to the level. */
  lemma AllCut(p0: Lists, p: Lists, locals: set<Addr>, slots: nat, limit: nat, offs: seq<Addr>, spammers: set<Addr>,
               offenders: set<Addr>, size: nat, total: nat)
    requires Level(p0, p, locals, slots, limit, offs, spammers, offenders, size, total)
    ensures offs != [] ==> CutTo(p0, p, locals, size) && size > slots
    ensures spammers == {} && offs == [] ==> CutTo(p0, p, locals, slots)
  {
    hide Of, Even, Apart, Among, Lowest;
    forall a | a !in locals ensures a in spammers || a in offenders
    || (|Of(p, a)| == |Of(p0, a)| && |Of(p0, a)| <= slots) {
      assert Of(p, a) == Of(p, a);
    }
  }

  /** Offenders at one level are cut to it. */
  lemma EvenIsCut(p0: Lists, p: Lists, locals: set<Addr>, slots: nat, offs: seq<Addr>, offenders: set<Addr>, size: nat)
    requires Suspects(p0, locals, slots, offs, {}, offenders) && Trimmed(p0, p, offenders) && slots <= size
    requires Even(p, offs, size)
    ensures CutTo(p0, p, locals, size)
  {
    hide Of, Even, Apart, Among, Lowest;
    NoLonger(p0, p, offenders);
    AllReached(p0, locals, slots, p, offs, {}, offenders, size);
    forall a | a !in locals ensures a in offenders || (|Of(p, a)| == |Of(p0, a)| && |Of(p0, a)| <= slots) {
      assert Of(p, a) == Of(p, a);
    }
  }

  /** Nothing is beyond a level as high as all lists together. */
  lemma NothingCut(p: Lists, locals: set<Addr>, level: nat)
    requires Total(p) <= level
    ensures CutTo(p, p, locals, level)
  {
    hide Total;
    forall a ensures |Of(p, a)| <= level {
      if a in p { TotalSplit(p, a); }
    }
  }

  lemma LastLength(l: Lists, offs: seq<Addr>, size: nat)
    requires Even(l, offs, size) && offs != []
    ensures |Of(l, offs[|offs| - 1])| == size
  {
  }

  lemma SuspectsApart(p0: Lists, locals: set<Addr>, slots: nat, offs: seq<Addr>, spammers: set<Addr>,
                      offenders: set<Addr>, next: Addr)
    requires Suspects(p0, locals, slots, offs, spammers, offenders) && next in spammers
    ensures forall a :: a in spammers ==> a !in offs
    ensures (offs + [next])[|offs|] == next
  {
  }

  lemma Levelled(l: Lists, offs: seq<Addr>, next: Addr, size: nat)
    requires Even(l, offs, size) && |Of(l, next)| == size
    ensures Even(l, offs + [next], size)
  {
  }

  lemma AllReached(p0: Lists, locals: set<Addr>, slots: nat, l: Lists, offs: seq<Addr>, spammers: set<Addr>,
                   offenders: set<Addr>, size: nat)
    requires Suspects(p0, locals, slots, offs, spammers, offenders) && Even(l, offs, size)
    ensures forall a :: a in offenders ==> |Of(l, a)| == size
  {
  }

  lemma AllWithin(p0: Lists, p: Lists, locals: set<Addr>, slots: nat, offs: seq<Addr>, offenders: set<Addr>)
    requires Suspects(p0, locals, slots, offs, {}, offenders) && Trimmed(p0, p, offenders)
    requires forall a :: a in offenders ==> |Of(p, a)| <= slots
    ensures forall a :: a !in locals ==> |Of(p, a)| <= slots
  {
    forall a | a !in locals ensures |Of(p, a)| <= slots {
      if a !in offenders { assert Of(p, a) == Of(p0, a); }
    }
  }

  lemma TrimmedNone(l: Lists)
    ensures Trimmed(l, l, {})
  {
  }

  lemma TotalNone()
    ensures Total(map[]) == 0
  {
  }

  ghost predicate Apart(accounts: seq<Addr>) {
    forall i, j :: 0 <= i < j < |accounts| ==> accounts[i] != accounts[j]
  }

  /** All lists are equally long. */
  ghost predicate Even(l: Lists, accounts: seq<Addr>, size: nat) {
    forall i :: 0 <= i < |accounts| ==> |Of(l, accounts[i])| == size
  }

  /** The lists of the first accounts are shorter by one. */
  ghost predicate Partly(l: Lists, accounts: seq<Addr>, i: nat, size: nat) {
    forall j :: 0 <= j < |accounts| ==> |Of(l, accounts[j])| == if j < i then size - 1 else size
  }

  lemma PartlyOne(l: Lists, l': Lists, accounts: seq<Addr>, i: nat, size: nat)
    requires Apart(accounts) && Partly(l, accounts, i, size) && i < |accounts|
    requires Elsewhere(l, l', accounts[i]) && |Of(l', accounts[i])| == |Of(l, accounts[i])| - 1
    ensures Partly(l', accounts, i + 1, size)
  {
    hide Of;
    forall j | 0 <= j < |accounts| ensures |Of(l', accounts[j])| == if j < i + 1 then size - 1 else size {
      assert j != i ==> Of(l', accounts[j]) == Of(l, accounts[j]);
    }
  }

  lemma PartlyEven(l: Lists, accounts: seq<Addr>, size: nat)
    ensures Even(l, accounts, size) ==> Partly(l, accounts, 0, size)
    ensures size > 0 && Partly(l, accounts, |accounts|, size) ==> Even(l, accounts, size - 1)
  {
  }

  ghost predicate Among(accounts: seq<Addr>, s: set<Addr>) {
    forall i :: 0 <= i < |accounts| ==> accounts[i] in s
  }

  lemma SizeIn(l: Lists, a: Addr)
    requires |Of(l, a)| > 0
    ensures a in l && Of(l, a) == l[a]
  {
  }

  lemma ElsewhereAll(l: Lists, l': Lists, a: Addr)
    requires Elsewhere(l, l', a)
    ensures forall x :: x != a ==> Of(l', x) == Of(l, x)
  {
  }

  lemma HasList(l: Lists, a: Addr)
    requires a in l && NoEmpty(l)
    ensures Of(l, a) == l[a] && l[a] != map[] && |l[a]| > 0
  {
  }

  lemma LastFacts(pending: Lists, queue: Lists, all: set<Tx>, a: Addr, txs: seq<Tx>)
    requires Places(pending, queue, all, {}) && a in pending && Keyed(pending[a]) && txs == Order(pending[a])
             && txs != []
    ensures var tx := txs[|txs| - 1];
            && tx.sender == a && Has(pending, a, tx.nonce) && Values(From(pending[a], tx.nonce)) == {tx}
            && |Below(pending[a], tx.nonce)| == |pending[a]| - 1 && Lowest(pending[a], Below(pending[a], tx.nonce))
  {
    hide Order, Places;
    var m := pending[a];
    var tx := txs[|txs| - 1];
    OrderSize(m);
    assert tx in txs;
    OrderHas(m, tx);
    CapSize(m, txs, |txs| - 1);
    ProperLists(pending, queue, all, {});
    forall n | n in m ensures n <= tx.nonce {
      OrderHas(m, m[n]);
      var i :| 0 <= i < |txs| && txs[i] == m[n];
      if i < |txs| - 1 { OrderAscends(m, i, |txs| - 1); }
    }
    var f := From(m, tx.nonce);
    assert f == map[tx.nonce := tx];
    assert tx.nonce in f;
  }

  lemma ElsewhereBoth(l0: Lists, l1: Lists, l2: Lists, a: Addr)
    requires Elsewhere(l0, l1, a) && Elsewhere(l1, l2, a)
    ensures Elsewhere(l0, l2, a)
  {
    forall x | x != a ensures Of(l2, x) == Of(l0, x) { assert Of(l1, x) == Of(l0, x); }
  }

  lemma KeyedOf(pending: Lists, queue: Lists, all: set<Tx>, a: Addr)
    requires Places(pending, queue, all, {})
    ensures Keyed(Of(queue, a)) && Keyed(Of(pending, a))
  {
    ProperLists(pending, queue, all, {});
  }

  /** A queue without what is too old or cannot be paid for. */
  ghost function Clean(m: Slots, n: nat, cost: nat, gas: nat): Slots {
    Paid(From(m, n), cost, gas)
  }

  lemma IsClean(m: Slots, n: nat, cost: nat, gas: nat)
    ensures forall k :: k in Clean(m, n, cost, gas) ==> n <= k && Affordable(Clean(m, n, cost, gas)[k], cost, gas)
  {
  }

  /** How many of so many transactions an account may queue. */
  function Allowed(local: bool, limit: nat, n: nat): nat {
    if !local && n > limit then limit else n
  }

  /** What one account's lists become: of the clean queue, what is ready is pending, and of the
      rest the lowest nonces stay, as many as are allowed. */
  ghost predicate Advanced(p: Slots, q: Slots, start: nat, p': Slots, q': Slots, n: nat, cost: nat, gas: nat,
                           local: bool, limit: nat) {
    var m := Clean(q, n, cost, gas);
    var e := ReadyEnd(m, start);
    p' == p + Below(m, e) && Lowest(From(m, e), q') && |q'| == Allowed(local, limit, |From(m, e)|)
  }

  /** The nonce that is expected once what is ready of a clean queue is pending. */
  ghost function Reached(m: Slots, start: nat): nat {
    var e := ReadyEnd(m, start);
    if e == 0 then start else e
  }

  lemma ReachedIs(m: Slots, start: nat)
    ensures m == map[] || LowestKey(m) > start ==> Reached(m, start) == start
    ensures m != map[] && LowestKey(m) <= start ==> Reached(m, start) == RunEnd(m, LowestKey(m))
  {
  }

  /** What an account has advances, if it is one of those given, and else stays the same. */
  ghost predicate AdvancedAt(p: Lists, q: Lists, v: map<Addr, nat>, p': Lists, q': Lists, v': map<Addr, nat>,
                             accounts: set<Addr>, nonces: Addr -> nat, balances: Addr -> nat, gas: nat,
                             locals: set<Addr>, limit: nat, a: Addr)
  {
    if a in accounts then
      && Advanced(Of(p, a), Of(q, a), Expected(nonces, v, a), Of(p', a), Of(q', a), nonces(a), balances(a), gas,
                  a in locals, limit)
      && Expected(nonces, v', a) == Reached(Clean(Of(q, a), nonces(a), balances(a), gas), Expected(nonces, v, a))
    else Of(p', a) == Of(p, a) && Of(q', a) == Of(q, a)
  }

  /** The lists of the given accounts have advanced, and so has the nonce expected of each; those
      of the others are the same. */
  ghost predicate AllAdvanced(p: Lists, q: Lists, v: map<Addr, nat>, p': Lists, q': Lists, v': map<Addr, nat>,
                              accounts: set<Addr>, nonces: Addr -> nat, balances: Addr -> nat, gas: nat,
                              locals: set<Addr>, limit: nat)
  {
    && v' - accounts == v - accounts
    && forall a {:trigger Of(p', a)} {:trigger Of(q', a)} ::
         AdvancedAt(p, q, v, p', q', v', accounts, nonces, balances, gas, locals, limit, a)
  }

  lemma NoneAdvanced(p: Lists, q: Lists, v: map<Addr, nat>, nonces: Addr -> nat, balances: Addr -> nat, gas: nat,
                     locals: set<Addr>, limit: nat)
    ensures AllAdvanced(p, q, v, p, q, v, {}, nonces, balances, gas, locals, limit)
  {
    forall a ensures AdvancedAt(p, q, v, p, q, v, {}, nonces, balances, gas, locals, limit, a) {
    }
  }

  lemma OneAdvanced(p0: Lists, q0: Lists, v0: map<Addr, nat>, p1: Lists, q1: Lists, v1: map<Addr, nat>,
                    p2: Lists, q2: Lists, v2: map<Addr, nat>, done: set<Addr>,
                    nonces: Addr -> nat, balances: Addr -> nat, gas: nat, locals: set<Addr>, limit: nat, a: Addr)
    requires AllAdvanced(p0, q0, v0, p1, q1, v1, done, nonces, balances, gas, locals, limit) && a !in done
    requires Elsewhere(p1, p2, a) && Elsewhere(q1, q2, a) && v2 - {a} == v1 - {a}
    requires AdvancedAt(p1, q1, v1, p2, q2, v2, {a}, nonces, balances, gas, locals, limit, a)
    ensures AllAdvanced(p0, q0, v0, p2, q2, v2, done + {a}, nonces, balances, gas, locals, limit)
  {
    hide Advanced, Of, Reached, Clean, AdvancedAt;
    BothBut(v0, v1, v2, done, a);
    forall x ensures AdvancedAt(p0, q0, v0, p2, q2, v2, done + {a}, nonces, balances, gas, locals, limit, x) {
      assert Of(p1, x) == Of(p1, x) && Of(p2, x) == Of(p2, x) && Of(q2, x) == Of(q2, x);
      OneAdvancedAt(p0, q0, v0, p1, q1, v1, p2, q2, v2, done, nonces, balances, gas, locals, limit, a, x);
    }
  }

  lemma BothBut(v0: map<Addr, nat>, v1: map<Addr, nat>, v2: map<Addr, nat>, done: set<Addr>, a: Addr)
    requires v1 - done == v0 - done && v2 - {a} == v1 - {a}
    ensures v2 - (done + {a}) == v0 - (done + {a})
    ensures forall x :: (x !in done ==> Track(v1, x) == Track(v0, x)) && (x != a ==> Track(v2, x) == Track(v1, x))
  {
    SameBut(v0, v1, done);
    SameBut(v1, v2, {a});
  }

  lemma OneAdvancedAt(p0: Lists, q0: Lists, v0: map<Addr, nat>, p1: Lists, q1: Lists, v1: map<Addr, nat>,
                      p2: Lists, q2: Lists, v2: map<Addr, nat>, done: set<Addr>,
                      nonces: Addr -> nat, balances: Addr -> nat, gas: nat, locals: set<Addr>, limit: nat, a: Addr,
                      x: Addr)
    requires AdvancedAt(p0, q0, v0, p1, q1, v1, done, nonces, balances, gas, locals, limit, x) && a !in done
    requires x != a ==> Of(p2, x) == Of(p1, x) && Of(q2, x) == Of(q1, x) && Track(v2, x) == Track(v1, x)
    requires x == a ==>
               && Track(v1, a) == Track(v0, a)
               && AdvancedAt(p1, q1, v1, p2, q2, v2, {a}, nonces, balances, gas, locals, limit, a)
    ensures AdvancedAt(p0, q0, v0, p2, q2, v2, done + {a}, nonces, balances, gas, locals, limit, x)
  {
    hide Advanced, Of, Reached, Clean;
    assert Expected(nonces, v1, x) == Next(nonces(x), Track(v1, x))
           && Expected(nonces, v0, x) == Next(nonces(x), Track(v0, x))
           && Expected(nonces, v2, x) == Next(nonces(x), Track(v2, x));
  }

  lemma SameBut(v: map<Addr, nat>, v': map<Addr, nat>, but: set<Addr>)
    requires v' - but == v - but
    ensures forall a :: a !in but ==> (a in v' <==> a in v)
    ensures forall a :: a !in but && a in v ==> v'[a] == v[a]
  {
    forall a | a !in but ensures (a in v' <==> a in v) && (a in v ==> v'[a] == v[a]) {
      assert a in v <==> a in v - but;
      assert a in v' <==> a in v' - but;
      if a in v { assert (v - but)[a] == (v' - but)[a]; }
    }
  }

  lemma OneSettled(q1: Lists, v1: map<Addr, nat>, q2: Lists, v2: map<Addr, nat>, nonces: Addr -> nat, rest: set<Addr>,
                   a: Addr)
    requires Settled(q1, nonces, v1, rest) && Elsewhere(q1, q2, a) && v2 - {a} == v1 - {a} && Waits(q2, nonces, v2, a)
    ensures Settled(q2, nonces, v2, rest - {a})
  {
    SameBut(v1, v2, {a});
    forall x | x !in rest - {a} ensures Waits(q2, nonces, v2, x) {
      if x != a { assert Waits(q1, nonces, v1, x) && Of(q2, x) == Of(q1, x); }
    }
  }

  /** Only the given accounts have queued anything older than the state. */
  ghost predicate StaleOnly(q: Lists, nonces: Addr -> nat, accounts: set<Addr>) {
    forall a, n :: Has(q, a, n) && a !in accounts ==> nonces(a) <= n
  }

  /** Limits on top of the advance of some accounts leave nothing stale and no queue too long. */
  lemma AfterLimits(p0: Lists, q0: Lists, v0: map<Addr, nat>, p1: Lists, q1: Lists, v1: map<Addr, nat>, q2: Lists,
                    accounts: set<Addr>, nonces: Addr -> nat, balances: Addr -> nat, gas: nat, locals: set<Addr>,
                    limit: nat)
    requires AllAdvanced(p0, q0, v0, p1, q1, v1, accounts, nonces, balances, gas, locals, limit)
    requires Swept(q1, q2, locals, {}, true)
    ensures StaleOnly(q0, nonces, accounts) ==> NoneStale(q2, nonces)
    ensures forall a :: a in accounts && a !in locals ==> |Of(q2, a)| <= limit
  {
    hide Advanced, Lowest, Reached, Clean, Of;
    forall a ensures a in accounts ==> (forall n :: n in Of(q2, a) ==> nonces(a) <= n)
      ensures a in accounts && a !in locals ==> |Of(q2, a)| <= limit
      ensures forall n :: n in Of(q2, a) ==> n in Of(q1, a)
    {
      assert Of(q1, a) == Of(q1, a) && Of(q2, a) == Of(q2, a);
      LowestPart(Of(q1, a), Of(q2, a));
      if a in accounts {
        AdvancedQueue(Of(p0, a), Of(q0, a), Expected(nonces, v0, a), Of(p1, a), Of(q1, a), nonces(a), balances(a), gas,
                      a in locals, limit);
      }
    }
    if StaleOnly(q0, nonces, accounts) {
      forall a, n | Has(q2, a, n) ensures nonces(a) <= n {
        HasOf(q2, a, n);
        HasOf(q0, a, n);
        assert Of(q1, a) == Of(q1, a);
      }
    }
  }

  lemma HasOf(l: Lists, a: Addr, n: nat)
    ensures Has(l, a, n) <==> n in Of(l, a)
  {
  }

  lemma LowestPart(m: Slots, m': Slots)
    requires Lowest(m, m')
    ensures |m'| <= |m| && forall n :: n in m' ==> n in m
  {
    PartSize(m, m');
  }

  /** What stays queued of an account that has advanced. */
  lemma AdvancedQueue(p: Slots, q: Slots, start: nat, p': Slots, q': Slots, n: nat, cost: nat, gas: nat, local: bool,
                      limit: nat)
    requires Advanced(p, q, start, p', q', n, cost, gas, local, limit)
    ensures (forall k :: k in q' ==> n <= k) && (!local ==> |q'| <= limit)
  {
    hide Clean, ReadyEnd;
    IsClean(q, n, cost, gas);
  }

  lemma PartSize(m: Slots, m': Slots)
    requires Part(m', m)
    ensures |m'| <= |m| && (|m'| == |m| ==> m' == m)
  {
    SubsetSize(m'.Keys, m.Keys);
    if |m'| == |m| { assert m'.Keys == m.Keys; }
  }

  /** What a local account loses is too old or cannot be paid for. */
  lemma LocalsStay(p0: Lists, q0: Lists, v0: map<Addr, nat>, all0: set<Tx>, p1: Lists, q1: Lists, v1: map<Addr, nat>,
                   p2: Lists, q2: Lists, all2: set<Tx>, accounts: set<Addr>, nonces: Addr -> nat, balances: Addr -> nat,
                   gas: nat, locals: set<Addr>, limit: nat, offenders: set<Addr>)
    requires Places(p0, q0, all0, {}) && Places(p2, q2, all2, {})
    requires AllAdvanced(p0, q0, v0, p1, q1, v1, accounts, nonces, balances, gas, locals, limit)
    requires Trimmed(p1, p2, offenders) && Swept(q1, q2, locals, {}, true) && offenders !! locals
    ensures forall tx :: tx in all0 && tx.sender in locals && tx !in all2 ==>
              tx.sender in accounts && (tx.nonce < nonces(tx.sender) || !Affordable(tx, balances(tx.sender), gas))
  {
    hide Places, Advanced, Affordable;
    forall tx | tx in all0 && tx.sender in locals
      ensures tx in all2 || (tx.sender in accounts
                             && (tx.nonce < nonces(tx.sender) || !Affordable(tx, balances(tx.sender), gas)))
    {
      var a := tx.sender;
      Found(p0, q0, all0, tx);
      Found(p2, q2, all2, tx);
      assert Of(p2, a) == Of(p1, a) && Of(q2, a) == Of(q1, a);
      if a in accounts {
        LocalAdvance(Of(p0, a), Of(q0, a), Expected(nonces, v0, a), Of(p1, a), Of(q1, a), nonces(a), balances(a), gas,
                     limit, tx);
      }
    }
  }

  lemma LocalAdvance(p: Slots, q: Slots, start: nat, p': Slots, q': Slots, n: nat, cost: nat, gas: nat, limit: nat,
                     tx: Tx)
    requires Advanced(p, q, start, p', q', n, cost, gas, true, limit) && !(tx.nonce in p && tx.nonce in q)
    requires (tx.nonce in p && p[tx.nonce] == tx) || (tx.nonce in q && q[tx.nonce] == tx)
    ensures (tx.nonce in p' && p'[tx.nonce] == tx) || (tx.nonce in q' && q'[tx.nonce] == tx)
            || tx.nonce < n || !Affordable(tx, cost, gas)
  {
    hide ReadyEnd, Affordable;
    var m := Clean(q, n, cost, gas);
    PartSize(From(m, ReadyEnd(m, start)), q');
  }

  /** Shorter lists on both sides leave nothing executable in the queue. */
  lemma StillSettled(p1: Lists, q1: Lists, all1: set<Tx>, nonces: Addr -> nat, v1: map<Addr, nat>, p2: Lists, q2: Lists,
                     v2: map<Addr, nat>, locals: set<Addr>, offenders: set<Addr>)
    requires Places(p1, q1, all1, {}) && Contiguous(p1, nonces, v1) && Contiguous(p2, nonces, v2)
    requires Settled(q1, nonces, v1, {}) && Trimmed(p1, p2, offenders) && Swept(q1, q2, locals, {}, true)
    ensures Settled(q2, nonces, v2, {})
  {
    hide Places, Contiguous;
    forall a ensures Waits(q2, nonces, v2, a) {
      assert Waits(q1, nonces, v1, a);
      assert Of(p2, a) == Of(p2, a) && Of(q2, a) == Of(q2, a);
      StillWaits(p1, q1, all1, nonces, v1, p2, q2, v2, a);
    }
  }

  lemma CleanParts(m: Slots, n: nat, cost: nat, gas: nat)
    requires Keyed(m)
    ensures Part(Below(m, n), m) && Without(m, Below(m, n), From(m, n)) && Keyed(Below(m, n)) && Keyed(From(m, n))
    ensures var f := From(m, n);
            && Part(Unpaid(f, cost, gas), f) && Without(f, Unpaid(f, cost, gas), Paid(f, cost, gas))
            && Keyed(Unpaid(f, cost, gas))
  {
  }

  lemma IsAdvanced(p: Slots, q: Slots, start: nat, p': Slots, q1: Slots, q2: Slots, q': Slots, n: nat, cost: nat,
                   gas: nat, local: bool, limit: nat)
    requires q1 == Clean(q, n, cost, gas) && q2 == From(q1, ReadyEnd(q1, start))
             && p' == p + Below(q1, ReadyEnd(q1, start))
    requires Lowest(q2, q') && |q'| == Allowed(local, limit, |q2|)
    ensures Advanced(p, q, start, p', q', n, cost, gas, local, limit)
  {
  }

  lemma LowestLacks(m: Slots, m': Slots, n: nat)
    requires Lowest(m, m')
    ensures n !in m ==> n !in m'
  {
  }

  /** What is ready, by the first transaction in the order. */
  lemma ReadyIs(m: Slots, txs: seq<Tx>, start: nat, p: Slots)
    requires Keyed(m) && txs == Order(m)
    ensures txs == [] || txs[0].nonce > start ==> ReadyEnd(m, start) == 0 && From(m, 0) == m && p + Below(m, 0) == p
    ensures txs == [] || txs[0].nonce > start ==> start !in m
    ensures txs != [] && txs[0].nonce <= start ==> ReadyEnd(m, start) == RunEnd(m, txs[0].nonce)
    ensures RunEnd(m, start) !in From(m, RunEnd(m, start))
    ensures txs != [] ==> RunEnd(m, txs[0].nonce) !in From(m, RunEnd(m, txs[0].nonce))
  {
    hide Order, RunEnd;
    LowestFirst(m, txs);
  }

  /** The first in the order has the lowest nonce. */
  lemma LowestFirst(m: Slots, txs: seq<Tx>)
    requires Keyed(m) && txs == Order(m)
    ensures |txs| == |m| && (txs == [] <==> m == map[])
    ensures txs != [] ==> txs[0].nonce in m && forall k :: k in m ==> txs[0].nonce <= k
    ensures txs != [] ==> Run(m, txs[0].nonce, RunEnd(m, txs[0].nonce))
  {
    hide Order;
    OrderSize(m);
    if m != map[] {
      OrderStep(m, LowestKey(m));
    }
  }

  /** Promoting what is ready is a step, and leaves nothing ready. */
  lemma ReadySteps(pending: Lists, queue: Lists, all: set<Tx>, virtual: map<Addr, nat>, nonces: Addr -> nat,
                   balances: Addr -> nat, gas: nat, a: Addr, m: Slots)
    requires Places(pending, queue, all, {}) && m == Of(queue, a)
    requires forall n :: n in m ==> nonces(a) <= n && Affordable(m[n], balances(a), gas)
    ensures var start := Expected(nonces, virtual, a);
            var e := ReadyEnd(m, start);
            && (m != map[] && LowestKey(m) <= start ==>
                  && Step(Of(pending, a), Track(virtual, a), Of(pending, a) + Below(m, e), Some(e), nonces(a),
                          balances(a), gas)
                  && e !in From(m, e))
            && (m == map[] || LowestKey(m) > start ==> start !in m)
  {
    hide ReadyEnd, From, Below, Step, Places, Affordable;
    forall n | n in m ensures n !in Of(pending, a) { SoleOf(pending, queue, all, a, n); }
    var v := Track(virtual, a);
    WholeIsUnbroken(pending, nonces, virtual, a);
    var v' := if m != map[] && LowestKey(m) <= Next(nonces(a), v) then Some(ReadyEnd(m, Next(nonces(a), v))) else v;
    AppendStep(Of(pending, a), v, m, nonces(a), balances(a), gas, v');
  }

  lemma TrackedRun(p: Lists, v: map<Addr, nat>, p': Lists, v': map<Addr, nat>, nonces: Addr -> nat,
                   balances: Addr -> nat, gas: nat, a: Addr, e: nat)
    requires Elsewhere(p, p', a) && v' == v[a := e]
    requires Step(Of(p, a), Track(v, a), Of(p', a), Some(e), nonces(a), balances(a), gas)
    ensures Steps(p, v, p', v', nonces, balances, gas) && Expected(nonces, v', a) == e && v' - {a} == v - {a}
  {
    hide Step, Steps, Elsewhere, Of;
    assert v' - {a} == v - {a};
    assert StepAt(p, v, p', v', nonces, balances, gas, a);
    OneStep(p, v, p', v', nonces, balances, gas, a);
  }

  lemma SoleOf(pending: Lists, queue: Lists, all: set<Tx>, a: Addr, n: nat)
    requires Places(pending, queue, all, {}) && n in Of(queue, a)
    ensures n !in Of(pending, a)
  {
    assert Sole(pending, queue, a, n);
    assert Has(queue, a, n);
  }

  /** The lowest so many nonces are those below the next one. */
  lemma CapSize(m: Slots, txs: seq<Tx>, k: nat)
    requires Keyed(m) && txs == Order(m) && k < |txs|
    ensures |Below(m, txs[k].nonce)| == k
  {
    hide Order;
    var b := txs[k].nonce;
    OrderSplit(m, b);
    var low := Order(Below(m, b));
    OrderSize(Below(m, b));
    assert txs[k] in txs;
    if |low| > k {
      assert low[k] == txs[k];
      OrderHas(Below(m, b), low[k]);
    }
    if |low| < k {
      var x := txs[|low|];
      assert x == Order(From(m, b))[0];
      OrderHas(From(m, b), x);
      OrderAscends(m, |low|, k);
    }
  }

  lemma ElsewhereSame(l: Lists, a: Addr)
    ensures Elsewhere(l, l, a)
  {
  }

  /** The lowest nonces of a list are the consecutive ones from `n` to before `e`. */
  ghost predicate Run(m: Slots, n: nat, e: nat) {
    n <= e && (forall k :: k in m && k < e ==> n <= k) && forall k :: n <= k < e ==> k in m
  }

  lemma RunParts(pending: Lists, queue: Lists, all: set<Tx>, e: nat, a: Addr)
    requires Places(pending, queue, all, {})
    ensures var m := Of(queue, a);
            && Keyed(m) && Keyed(Below(m, e)) && Part(Below(m, e), m) && Without(m, Below(m, e), From(m, e))
            && forall k :: k in m ==> m[k].sender == a
  {
    ProperLists(pending, queue, all, {});
  }

  lemma {:induction false} RunNonces(m: Slots, n: nat, e: nat, a: Addr)
    requires Run(m, n, e) && Keyed(m) && forall k :: k in m ==> m[k].sender == a
    ensures var txs := Order(Below(m, e));
            |txs| == e - n && forall i :: 0 <= i < |txs| ==> txs[i].nonce == n + i && txs[i].sender == a
    decreases e - n
  {
    hide Order;
    if n == e {
      OrderNone(Below(m, e));
    } else {
      OrderStep(Below(m, e), n);
      assert Below(m, e) - {n} == Below(m - {n}, e);
      RunNonces(m - {n}, n + 1, e, a);
    }
  }

  /** A pending list is cut at a transaction, and what followed it has been queued. */
  ghost predicate CutAt(p: Lists, q: Lists, p': Lists, q': Lists, tx: Tx) {
    && In(p, tx) && p' == Set(p, tx.sender, Below(p[tx.sender], tx.nonce))
    && Elsewhere(q, q', tx.sender) && Of(q', tx.sender) == Of(q, tx.sender) + From(p[tx.sender], tx.nonce + 1)
  }

  /** The transactions after a pending one are taken in hand, and the one itself is given up. */
  lemma CutTaken(pending: Lists, queue: Lists, all: set<Tx>, tx: Tx)
    requires Places(pending, queue, all, {}) && In(pending, tx)
    ensures tx.sender in pending && Keyed(From(pending[tx.sender], tx.nonce + 1))
    ensures var m := pending[tx.sender];
            Places(Set(pending, tx.sender, Below(m, tx.nonce)), queue, all - {tx}, Values(From(m, tx.nonce + 1)))
  {
    hide Places, Values, Set;
    var a := tx.sender;
    var m := pending[a];
    ProperLists(pending, queue, all, {});
    TakeFrom(pending, queue, all, a, tx.nonce);
    ValuesFrom(m, tx);
    Forget(Set(pending, a, Below(m, tx.nonce)), queue, all, Values(From(m, tx.nonce)), {tx});
  }

  /** What a cut does: the list is shorter, the rest is queued, and no gap appears. */
  lemma CutDone(p: Lists, q: Lists, all: set<Tx>, v: map<Addr, nat>, p': Lists, q': Lists, v': map<Addr, nat>,
                nonces: Addr -> nat, balances: Addr -> nat, gas: nat, tx: Tx)
    requires Places(p, q, all, {}) && Places(p', q', all - {tx}, {}) && In(p, tx)
    requires p' == Set(p, tx.sender, Below(p[tx.sender], tx.nonce))
    requires v' == if Expected(nonces, v, tx.sender) > tx.nonce then v[tx.sender := tx.nonce] else v
    ensures CutAt(p, q, p', q', tx) && Steps(p, v, p', v', nonces, balances, gas)
    ensures Contiguous(p, nonces, v) ==> Contiguous(p', nonces, v') && KeepWaiting(q, v, q', v', nonces)
    ensures Contiguous(p, nonces, v) && NoneStale(q, nonces) ==> NoneStale(q', nonces)
  {
    hide Places, Contiguous, NoneStale, KeepWaiting, Steps, Set, Below, From, Elsewhere;
    CutSteps(p, v, nonces, balances, gas, tx.sender, tx.nonce);
    StepsContiguous(p, v, p', v', nonces, balances, gas);
    CutWaits(p, q, all, p', q', tx, nonces, v);
    CutQueued(p, q, all, p', q', tx, tx.sender);
    if Contiguous(p, nonces, v) { CutIsFresh(p, nonces, v, tx.sender, tx.nonce); }
  }

  lemma OneMore(txs: seq<Tx>, i: nat, off: set<Tx>, all: set<Tx>)
    requires i < |txs|
    ensures off - SetOf(txs[..i]) - {txs[i]} == off - SetOf(txs[..i + 1])
    ensures all - SetOf(txs[..i]) - {txs[i]} == all - SetOf(txs[..i + 1])
  {
    assert txs[..i + 1] == txs[..i] + [txs[i]];
    assert SetOf(txs[..i + 1]) == SetOf(txs[..i]) + {txs[i]};
  }

  lemma WaitOn(q0: Lists, v0: map<Addr, nat>, q1: Lists, v1: map<Addr, nat>, q2: Lists, v2: map<Addr, nat>,
               nonces: Addr -> nat)
    ensures KeepWaiting(q0, v0, q1, v1, nonces) && KeepWaiting(q1, v1, q2, v2, nonces) ==>
              KeepWaiting(q0, v0, q2, v2, nonces)
  {
    if KeepWaiting(q0, v0, q1, v1, nonces) && KeepWaiting(q1, v1, q2, v2, nonces) {
      forall a ensures Waits(q0, nonces, v0, a) ==> Waits(q2, nonces, v2, a) {
        assert Waits(q0, nonces, v0, a) ==> Waits(q1, nonces, v1, a);
      }
    }
  }

  ghost predicate SameNonce(x: Tx, tx: Tx) {
    x.sender == tx.sender && x.nonce == tx.nonce
  }

  lemma PriorKnown(pending: Lists, queue: Lists, all: set<Tx>, tx: Tx)
    requires Places(pending, queue, all, {})
    ensures Has(pending, tx.sender, tx.nonce) <==> tx.sender in pending && tx.nonce in pending[tx.sender]
    ensures Has(pending, tx.sender, tx.nonce) ==>
              pending[tx.sender][tx.nonce] in all && SameNonce(pending[tx.sender][tx.nonce], tx)
    ensures Has(queue, tx.sender, tx.nonce) ==>
              tx.sender in queue && tx.nonce in queue[tx.sender] && queue[tx.sender][tx.nonce] in all
              && SameNonce(queue[tx.sender][tx.nonce], tx)
  {
    ProperLists(pending, queue, all, {});
    if Has(pending, tx.sender, tx.nonce) { Found(pending, queue, all, pending[tx.sender][tx.nonce]); }
    if Has(queue, tx.sender, tx.nonce) { Found(pending, queue, all, queue[tx.sender][tx.nonce]); }
  }

  lemma FreshIsStaleOnly(q: Lists, nonces: Addr -> nat, accounts: set<Addr>)
    requires NoneStale(q, nonces)
    ensures StaleOnly(q, nonces, accounts)
  {
  }

  /** What stays pending of a list: what is not too old, up to the first that cannot be paid for,
      provided that the state's own nonce is there. */
  ghost function Demoted(m: Slots, n: nat, cost: nat, gas: nat): Slots {
    var k := Kept(From(m, n), true, cost, gas);
    if n in k then k else map[]
  }

  /** The pending lists of some accounts have been demoted, the others are the same. */
  ghost predicate AllDemoted(p: Lists, p': Lists, done: set<Addr>, nonces: Addr -> nat, balances: Addr -> nat,
                             gas: nat) {
    forall a {:trigger Of(p', a)} ::
      Of(p', a) == if a in done then Demoted(Of(p, a), nonces(a), balances(a), gas) else Of(p, a)
  }

  lemma NoneDemoted(p: Lists, all: set<Tx>, nonces: Addr -> nat, balances: Addr -> nat, gas: nat)
    ensures AllDemoted(p, p, {}, nonces, balances, gas) && JustlyLost(all, all, nonces, balances, gas)
  {
  }

  lemma OneDemoted(p0: Lists, p1: Lists, p2: Lists, done: set<Addr>, nonces: Addr -> nat, balances: Addr -> nat,
                   gas: nat, a: Addr)
    requires AllDemoted(p0, p1, done, nonces, balances, gas) && a !in done && Elsewhere(p1, p2, a)
    requires Of(p2, a) == Demoted(Of(p1, a), nonces(a), balances(a), gas)
    ensures AllDemoted(p0, p2, done + {a}, nonces, balances, gas)
  {
    hide Demoted;
    forall x ensures Of(p2, x) == if x in done + {a} then Demoted(Of(p0, x), nonces(x), balances(x), gas)
    else Of(p0, x) {
      assert Of(p1, x) == Of(p1, x);
    }
  }

  lemma MoreDemoted(p: Lists, p': Lists, done: set<Addr>, nonces: Addr -> nat, balances: Addr -> nat, gas: nat)
    requires AllDemoted(p, p', done, nonces, balances, gas) && done == p.Keys
    ensures AllDemoted(p, p', p'.Keys + p.Keys, nonces, balances, gas)
  {
  }

  /** Whatever is gone is too old or cannot be paid for. */
  ghost predicate JustlyLost(all: set<Tx>, all': set<Tx>, nonces: Addr -> nat, balances: Addr -> nat, gas: nat) {
    && all' <= all
    && forall tx :: tx in all && tx !in all' ==>
      tx.nonce < nonces(tx.sender) || !Affordable(tx, balances(tx.sender), gas)
  }

  /** What demotion drops is justly lost. */
  lemma LostOf(pending: Lists, queue: Lists, all0: set<Tx>, all: set<Tx>, a: Addr, nonces: Addr -> nat,
               balances: Addr -> nat, gas: nat)
    requires Places(pending, queue, all, {}) && JustlyLost(all0, all, nonces, balances, gas)
    ensures var m := Of(pending, a);
            JustlyLost(all0, all - Values(Below(m, nonces(a))) - Values(Unpaid(From(m, nonces(a)), balances(a), gas)),
                       nonces, balances, gas)
  {
    ProperLists(pending, queue, all, {});
  }

  /** The last transaction has the highest nonce. */
  lemma LastAbove(m: Slots, txs: seq<Tx>)
    requires Keyed(m) && txs == Order(m) && m != map[]
    ensures txs != [] && txs[|txs| - 1].nonce + 1 == Above(m)
  {
    hide Order, Above;
    OrderSize(m);
    AboveTight(m);
    var top := Above(m) - 1;
    OrderHas(m, m[top]);
    var i :| 0 <= i < |txs| && txs[i] == m[top];
    if i < |txs| - 1 {
      OrderAscends(m, i, |txs| - 1);
      OrderHas(m, txs[|txs| - 1]);
    }
  }

  lemma {:induction false} AboveTight(m: Slots)
    ensures m != map[] ==> Above(m) > 0 && Above(m) - 1 in m
    ensures forall n :: n in m ==> n < Above(m)
    decreases |m|
  {
    hide Above, Order;
    if m != map[] {
      var n := AboveStep(m);
      AboveTight(m - {n});
      assert Above(m - {n}) > 0 ==> m - {n} != map[];
    }
  }

  lemma AboveStep(m: Slots) returns (n: nat)
    requires m != map[]
    ensures n in m && |m - {n}| < |m| && (m - {n} == map[] ==> Above(m - {n}) == 0)
    ensures Above(m) == if Above(m - {n}) > n then Above(m - {n}) else n + 1
  {
    n := LowestKey(m);
    assert m.Keys == (m - {n}).Keys + {n};
  }

  /** No nonce is missing between the state's and one that can be paid for like all before it,
      unless the state's own is missing or cannot be paid for. */
  ghost predicate Gapless(m: Slots, n: nat, cost: nat, gas: nat) {
    n in m && Affordable(m[n], cost, gas) ==>
      forall k, j: nat :: Payable(m, n, cost, gas, k) && n <= j < k ==> j in m
  }

  ghost predicate Payable(m: Slots, n: nat, cost: nat, gas: nat, k: nat) {
    k in m && n <= k && forall j :: j in m && n <= j <= k ==> Affordable(m[j], cost, gas)
  }

  lemma KeptIsPayable(m: Slots, n: nat, cost: nat, gas: nat, k: nat)
    ensures k in Kept(From(m, n), true, cost, gas) <==> Payable(m, n, cost, gas, k)
  {
    var f := From(m, n);
    var u := Unpaid(f, cost, gas);
    if u != map[] {
      var low := LowestKey(u);
      assert low in u && !Affordable(m[low], cost, gas);
      if k in m && n <= k < low {
        forall j | j in m && n <= j <= k ensures Affordable(m[j], cost, gas) {
          assert j in f && (j in u ==> low <= j);
        }
      }
    } else {
      forall j | j in f ensures Affordable(m[j], cost, gas) { assert j !in u; }
    }
  }

  /** Demotion leaves exactly the nonces from the state's up to the one expected next, if and only
      if the list was gapless. */
  lemma DemotedIsUnbroken(m: Slots, n: nat, cost: nat, gas: nat)
    ensures var d := Demoted(m, n, cost, gas);
            var e := if d == map[] then n else Above(d);
            (n <= e && forall k: nat :: k in d <==> n <= k < e) <==> Gapless(m, n, cost, gas)
  {
    hide Kept, Above, Payable;
    var d := Demoted(m, n, cost, gas);
    AboveTight(d);
    forall k: nat ensures k in d <==> n in d && Payable(m, n, cost, gas, k) {
      KeptIsPayable(m, n, cost, gas, k);
    }
    KeptIsPayable(m, n, cost, gas, n);
    FirstPayable(m, n, cost, gas);
    if d != map[] {
      var e := Above(d);
      if Gapless(m, n, cost, gas) {
        forall k: nat | n <= k < e ensures k in d { UpTo(m, n, cost, gas, k, e - 1); }
      }
      if n <= e && forall k: nat :: k in d <==> n <= k < e {
        forall k, j: nat | Payable(m, n, cost, gas, k) && n <= j < k ensures j in m {
          assert k in d && j in d;
          UpTo(m, n, cost, gas, j, j);
        }
      }
    }
  }

  lemma FirstPayable(m: Slots, n: nat, cost: nat, gas: nat)
    ensures Payable(m, n, cost, gas, n) <==> n in m && Affordable(m[n], cost, gas)
    ensures forall k :: Payable(m, n, cost, gas, k) ==> n <= k
  {
  }

  lemma UpTo(m: Slots, n: nat, cost: nat, gas: nat, k: nat, top: nat)
    requires Payable(m, n, cost, gas, top) && n <= k <= top
    ensures top in m && (k in m ==> Payable(m, n, cost, gas, k))
  {
  }

  /** Consecutive nonces are gapless for every state. */
  lemma AlwaysGapless(pending: Lists, nonces: Addr -> nat, virtual: map<Addr, nat>, nonces': Addr -> nat,
                      balances: Addr -> nat, gas: nat)
    requires Contiguous(pending, nonces, virtual)
    ensures forall a :: Gapless(Of(pending, a), nonces'(a), balances(a), gas)
  {
    forall a ensures Gapless(Of(pending, a), nonces'(a), balances(a), gas) {
      assert Unbroken(pending, nonces, virtual, a);
      var m, n := Of(pending, a), nonces'(a);
      forall k, j: nat | n in m && Payable(m, n, balances(a), gas, k) && n <= j < k ensures j in m {
        assert Has(pending, a, n) && Has(pending, a, k);
        assert Has(pending, a, j);
      }
    }
  }

  /** After demotion the pending nonces of an account have no gap if and only if the list had none
      that matters, and the state's nonce is expected where nothing is pending. */
  lemma RaisedUnbroken(p0: Lists, v0: map<Addr, nat>, p: Lists, v: map<Addr, nat>, nonces: Addr -> nat,
                       balances: Addr -> nat, gas: nat, a: Addr)
    requires AllDemoted(p0, p, p.Keys + p0.Keys, nonces, balances, gas) && NoEmpty(p)
    requires v.Keys == v0.Keys + p.Keys && forall x :: x in v ==> v[x] == if x in p then Above(p[x]) else v0[x]
    ensures Unbroken(p, nonces, v, a) <==>
              Gapless(Of(p0, a), nonces(a), balances(a), gas) && (a !in p ==> Expected(nonces, v0, a) == nonces(a))
  {
    hide Demoted, Gapless, Above, Unbroken, Whole;
    DemotedNone(nonces(a), balances(a), gas);
    assert Of(p, a) == Demoted(Of(p0, a), nonces(a), balances(a), gas);
    WholeIsUnbroken(p, nonces, v, a);
    WholeIsUnbroken(p, nonces, v0, a);
    DemotedWhole(Of(p0, a), nonces(a), Track(v0, a), balances(a), gas);
  }

  lemma DemotedWhole(m: Slots, n: nat, v: Option<nat>, cost: nat, gas: nat)
    ensures var d := Demoted(m, n, cost, gas);
            Whole(d, n, if d != map[] then Some(Above(d)) else v) <==>
              Gapless(m, n, cost, gas) && (d == map[] ==> Next(n, v) == n)
  {
    hide Demoted, Gapless, Above;
    DemotedIsUnbroken(m, n, cost, gas);
    var d := Demoted(m, n, cost, gas);
    if d == map[] {
      assert Whole(d, n, v) && Next(n, v) > n ==> n in d;
    }
  }

  lemma DemotedNone(n: nat, cost: nat, gas: nat)
    ensures Demoted(map[], n, cost, gas) == map[]
  {
  }

  /** A gap that is not in front stays: nonce 6 is missing, and 7 is pending. */
  lemma GapStays(first: Tx, last: Tx, cost: nat, gas: nat)
    requires first.nonce == 5 && last.nonce == 7 && Affordable(first, cost, gas) && Affordable(last, cost, gas)
    ensures var m: Slots := map[5 := first, 7 := last];
            Demoted(m, 5, cost, gas) == m && !Gapless(m, 5, cost, gas)
  {
    var m: Slots := map[5 := first, 7 := last];
    var k := Kept(From(m, 5), true, cost, gas);
    forall n: nat ensures n in k <==> n in m {
      KeptIsPayable(m, 5, cost, gas, n);
    }
    assert Payable(m, 5, cost, gas, 7) && 6 !in m;
  }

  /** When all queues are looked at, nothing is known of them before. */
  lemma EveryAccount(q: Lists, nonces: Addr -> nat, virtual: map<Addr, nat>)
    ensures StaleOnly(q, nonces, q.Keys) && Settled(q, nonces, virtual, q.Keys)
  {
    forall a | a !in q.Keys ensures Waits(q, nonces, virtual, a) {
    }
  }

  lemma DemoteParts(f: Slots, cost: nat, gas: nat)
    requires Keyed(f)
    ensures var paid, stranded, kept := Paid(f, cost, gas), Stranded(f, true, cost, gas), Kept(f, true, cost, gas);
            && Keyed(paid) && Part(stranded, paid) && Keyed(stranded) && Without(paid, stranded, kept) && Keyed(kept)
  {
    var paid, stranded, kept := Paid(f, cost, gas), Stranded(f, true, cost, gas), Kept(f, true, cost, gas);
    forall n ensures n in kept <==> n in paid && n !in stranded {
      FilterSplits(f, true, cost, gas, n);
      assert n in f ==> (n in paid <==> n !in Unpaid(f, cost, gas));
    }
  }

  lemma AllParts(m: Slots)
    ensures Part(m, m) && Without(m, m, map[])
  {
  }

  /** The strict filter: the lowest nonce that cannot be paid for divides what can. */
  method SplitStrict(f: Slots, cost: nat, gas: nat) returns (kept: Slots, stranded: Slots)
    requires Keyed(f)
    ensures kept == Kept(f, true, cost, gas) && stranded == Stranded(f, true, cost, gas)
  {
    hide Order;
    var unpaid, paid := Unpaid(f, cost, gas), Paid(f, cost, gas);
    if |unpaid| == 0 {
      return paid, map[];
    }
    var txs := Flat(unpaid);
    LowestFirst(unpaid, txs);
    return Below(f, txs[0].nonce), From(paid, txs[0].nonce);
  }

  lemma PutFresh(q: Lists, nonces: Addr -> nat, tx: Tx)
    requires NoneStale(q, nonces) && nonces(tx.sender) <= tx.nonce
    ensures NoneStale(Put(q, tx), nonces)
  {
    forall a, n | Has(Put(q, tx), a, n) ensures nonces(a) <= n {
      if !(a == tx.sender && n == tx.nonce) { assert Has(q, a, n); }
    }
  }

  lemma PutSettled(q: Lists, nonces: Addr -> nat, virtual: map<Addr, nat>, but: set<Addr>, tx: Tx)
    ensures Settled(q, nonces, virtual, but) ==> Settled(Put(q, tx), nonces, virtual, but + {tx.sender})
    ensures Settled(q, nonces, virtual, but) && Has(q, tx.sender, tx.nonce) ==>
              Settled(Put(q, tx), nonces, virtual, but)
  {
    if Settled(q, nonces, virtual, but) {
      forall a | a !in but ensures a != tx.sender || Has(q, tx.sender, tx.nonce) ==>
        Waits(Put(q, tx), nonces, virtual, a) {
        assert Waits(q, nonces, virtual, a);
      }
    }
  }

  lemma SettledOn(q0: Lists, v0: map<Addr, nat>, q1: Lists, v1: map<Addr, nat>, nonces: Addr -> nat, but: set<Addr>)
    requires Settled(q0, nonces, v0, but) && KeepWaiting(q0, v0, q1, v1, nonces)
    ensures Settled(q1, nonces, v1, but)
  {
    forall a | a !in but ensures Waits(q1, nonces, v1, a) {
      assert Waits(q0, nonces, v0, a);
    }
  }

  /** Pooled transactions that are not local, none dearer than one that stays. */
  ghost predicate Cheapest(drop: seq<Tx>, all: set<Tx>, locals: set<Addr>) {
    && (forall d :: d in drop ==> d in all && d.sender !in locals)
    && forall d, x :: d in drop && x in all && x !in drop && x.sender !in locals ==> !Before(x, d)
  }

  lemma NoneDropped(all: set<Tx>, locals: set<Addr>)
    ensures Cheapest([], all, locals) && SetOf([]) == {} && all - SetOf([]) == all && Single([])
  {
  }

  lemma NoMiscounts(h: seq<Tx>, all: set<Tx>, locals: set<Addr>, count: int)
    ensures count < 2 ==> !MayMiscount(h, all, locals, count) && !MustMiscount(h, all, locals, count)
  {
  }

  /** As many different transactions are dropped as the list has, if it has none twice. */
  lemma DropSize(drop: seq<Tx>, all: set<Tx>)
    requires forall d :: d in drop ==> d in all
    ensures |all - SetOf(drop)| == |all| - |SetOf(drop)|
    ensures |SetOf(drop)| <= |drop| && (|SetOf(drop)| == |drop| <==> Single(drop))
  {
    var s := SetOf(drop);
    assert all == s + (all - s);
    DistinctSize(drop);
  }

  /** Whatever leaves with all its entries leaves once if and only if it had one. */
  lemma SingleCopies(drop: seq<Tx>, items: seq<Tx>, all: set<Tx>, locals: set<Addr>)
    requires forall x :: x in drop ==> multiset(drop)[x] == multiset(items)[x] && x in all && x.sender !in locals
    ensures Single(drop) <==> forall x :: x in drop ==> !Doubled(items, all, locals, x)
    ensures |SetOf(drop)| <= |drop|
  {
    DistinctSize(drop);
    if !Single(drop) {
      var x :| multiset(drop)[x] > 1;
      assert x in drop;
    }
  }

  lemma {:induction false} DistinctSize(s: seq<Tx>)
    ensures |SetOf(s)| <= |s| && (|SetOf(s)| == |s| <==> Single(s))
  {
    if s != [] {
      var init, x := s[..|s| - 1], s[|s| - 1];
      assert s == init + [x];
      DistinctSize(init);
      assert SetOf(s) == SetOf(init) + {x};
      assert multiset(s) == multiset(init) + multiset{x};
      if x in init {
        assert SetOf(s) == SetOf(init);
        assert multiset(init)[x] >= 1;
        assert multiset(s)[x] > 1;
      } else {
        assert |SetOf(s)| == |SetOf(init)| + 1;
        assert multiset(init)[x] == 0;
        if !Single(init) {
          var y :| multiset(init)[y] > 1;
          assert multiset(s)[y] > 1;
        }
      }
    }
  }

  lemma SameWaits(q: Lists, v: map<Addr, nat>, nonces: Addr -> nat)
    ensures KeepWaiting(q, v, q, v, nonces)
  {
  }

  lemma LessWaits(q: Lists, v: map<Addr, nat>, nonces: Addr -> nat, a: Addr, m: Slots)
    requires forall n :: n in m ==> n in Of(q, a)
    ensures KeepWaiting(q, v, Set(q, a, m), v, nonces)
  {
    forall x ensures Waits(q, nonces, v, x) ==> Waits(Set(q, a, m), nonces, v, x) {
    }
  }

  lemma LessFresh(q: Lists, nonces: Addr -> nat, a: Addr, m: Slots)
    requires NoneStale(q, nonces) && forall n :: n in m ==> Has(q, a, n)
    ensures NoneStale(Set(q, a, m), nonces)
  {
    forall x, n | Has(Set(q, a, m), x, n) ensures nonces(x) <= n {
      assert Has(q, x, n);
    }
  }

  /** What follows a pending nonce is not older than the state either. */
  lemma CutIsFresh(pending: Lists, nonces: Addr -> nat, virtual: map<Addr, nat>, a: Addr, cut: nat)
    requires Contiguous(pending, nonces, virtual) && Has(pending, a, cut)
    ensures nonces(a) <= cut < Expected(nonces, virtual, a)
  {
    assert Unbroken(pending, nonces, virtual, a);
  }

  lemma LessCovered(items: seq<Tx>, all: set<Tx>, off: set<Tx>, tx: Tx)
    requires Covers(items, all - off)
    ensures Covers(items, all - {tx} - (off - {tx}))
  {
  }

  lemma OffLess(all: set<Tx>, off: set<Tx>, tx: Tx)
    requires tx !in all
    ensures all - (off - {tx}) == all - off
  {
  }

  lemma DropNone(txs: seq<Tx>, hand: set<Tx>, all: set<Tx>)
    ensures hand - SetOf(txs[..0]) == hand && all - SetOf(txs[..0]) == all
  {
  }

  lemma DropOne(txs: seq<Tx>, i: nat, hand: set<Tx>, all: set<Tx>)
    requires i < |txs| && NoDup(txs) && SetOf(txs) <= hand
    ensures txs[i] in hand - SetOf(txs[..i])
    ensures hand - SetOf(txs[..i]) - {txs[i]} == hand - SetOf(txs[..i + 1])
    ensures all - SetOf(txs[..i]) - {txs[i]} == all - SetOf(txs[..i + 1])
  {
    assert txs[i] in txs;
    assert txs[..i + 1] == txs[..i] + [txs[i]];
    assert SetOf(txs[..i + 1]) == SetOf(txs[..i]) + {txs[i]};
  }

  lemma FewerCovered(items: seq<Tx>, all: set<Tx>, tx: Tx)
    requires Covers(items, all - {})
    ensures Covers(items, all - {tx})
  {
  }
}
