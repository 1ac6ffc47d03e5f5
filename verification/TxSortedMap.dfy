/**
 Transactions of one account by nonce: a map, a heap over its keys and a cached order. The three
 views agree after every operation.
 */
module TxSortedMap {
  import opened Common

  type Addr = nat

  /** A transaction. Its hash is represented by the transaction itself. */
  datatype Tx = Tx(sender: Addr, nonce: nat, price: nat, gas: nat, value: nat, payload: nat) {
    /** The most that the transaction can cost its sender. */
    function Cost(): nat {
      value + price * gas
    }
  }

  type Slots = map<nat, Tx>

  // ---------------------------------------------------------------- heaps of numbers

  /** An element is at least its parent. */
  ghost predicate Heaped(h: seq<nat>, i: nat) {
    0 < i < |h| ==> h[(i - 1) / 2] <= h[i]
  }

  ghost predicate IsHeap(h: seq<nat>) {
    forall i {:trigger Heaped(h, i)} :: Heaped(h, i)
  }

  ghost predicate Ascending(h: seq<nat>) {
    forall i, j :: 0 <= i < j < |h| ==> h[i] <= h[j]
  }

  lemma {:induction false} HeapMin(h: seq<nat>, i: nat)
    requires IsHeap(h) && i < |h|
    ensures h[0] <= h[i]
  {
    if i > 0 {
      assert Heaped(h, i);
      HeapMin(h, (i - 1) / 2);
    }
  }

  lemma HeapTop(h: seq<nat>)
    requires IsHeap(h) && h != []
    ensures forall x :: x in h ==> h[0] <= x
  {
    forall x | x in h ensures h[0] <= x {
      var i :| 0 <= i < |h| && h[i] == x;
      HeapMin(h, i);
    }
  }

  /** Puts a number into an ascending sequence. */
  function Insert(h: seq<nat>, x: nat): (r: seq<nat>)
    ensures multiset(r) == multiset(h) + multiset{x}
  {
    if h == [] then [x]
    else if x <= h[0] then
      assert [x] + h == [x] + h;
      [x] + h
    else
      assert h == [h[0]] + h[1..];
      [h[0]] + Insert(h[1..], x)
  }

  function Sort(h: seq<nat>): (r: seq<nat>)
    ensures multiset(r) == multiset(h)
  {
    if h == [] then []
    else
      assert h == [h[0]] + h[1..];
      Insert(Sort(h[1..]), h[0])
  }

  lemma {:induction false} InsertAscending(h: seq<nat>, x: nat)
    requires Ascending(h)
    ensures Ascending(Insert(h, x))
  {
    if h != [] && x > h[0] {
      InsertAscending(h[1..], x);
      var r := Insert(h[1..], x);
      forall i | 0 <= i < |r| ensures h[0] <= r[i] {
        assert r[i] in multiset(r);
        assert r[i] == x || r[i] in h[1..];
      }
    }
  }

  lemma {:induction false} SortAscending(h: seq<nat>)
    ensures Ascending(Sort(h))
  {
    if h != [] {
      SortAscending(h[1..]);
      InsertAscending(Sort(h[1..]), h[0]);
    }
  }

  // The standard library's heap operations, by what they promise: the result is a heap of the
  // right elements. Callers see no more than that.

  method HeapPush(h: seq<nat>, x: nat) returns (r: seq<nat>)
    ensures IsHeap(r) && multiset(r) == multiset(h) + multiset{x}
  {
    SortAscending(h);
    InsertAscending(Sort(h), x);
    r := Insert(Sort(h), x);
  }

  method HeapPop(h: seq<nat>) returns (x: nat, r: seq<nat>)
    requires IsHeap(h) && h != []
    ensures x == h[0] && IsHeap(r) && multiset(r) == multiset(h) - multiset{x}
  {
    x := h[0];
    assert h == [h[0]] + h[1..];
    r := HeapInit(h[1..]);
  }

  method HeapInit(h: seq<nat>) returns (r: seq<nat>)
    ensures IsHeap(r) && multiset(r) == multiset(h)
  {
    SortAscending(h);
    r := Sort(h);
  }

  method HeapRemove(h: seq<nat>, i: nat) returns (r: seq<nat>)
    requires i < |h|
    ensures IsHeap(r) && multiset(r) == multiset(h) - multiset{h[i]}
  {
    assert h == h[..i] + [h[i]] + h[i + 1..];
    r := HeapInit(h[..i] + h[i + 1..]);
  }

  // ---------------------------------------------------------------- contents

  /** Every transaction is under its own nonce. */
  ghost predicate Keyed(m: Slots) {
    forall n :: n in m ==> m[n].nonce == n
  }

  /** What is left from a nonce on, and what is below it. */
  function From(m: Slots, n: nat): Slots {
    map k | k in m && k >= n :: m[k]
  }

  function Below(m: Slots, n: nat): Slots {
    map k | k in m && k < n :: m[k]
  }

  /** Where the run of consecutive nonces from `n` on ends. */
  function RunEnd(m: Slots, n: nat): (e: nat)
    ensures e >= n && e !in m && forall k :: n <= k < e ==> k in m
    decreases |From(m, n).Keys|
  {
    if n !in m then n
    else
      assert From(m, n).Keys == From(m, n + 1).Keys + {n};
      RunEnd(m, n + 1)
  }

  // ---------------------------------------------------------------- the order of the contents

  lemma {:induction false} LowestExists(s: set<nat>) returns (n: nat)
    requires s != {}
    ensures n in s && forall k :: k in s ==> n <= k
  {
    var x :| x in s;
    n := x;
    if s != {x} {
      var k := LowestExists(s - {x});
      if k < x { n := k; }
      forall y | y in s ensures n <= y {
        assert y == x || y in s - {x};
      }
    }
  }

  ghost function LowestKey(m: Slots): (n: nat)
    requires m != map[]
    ensures n in m && forall k :: k in m ==> n <= k
  {
    HasKey(m);
    var n :| n in m && forall k :: k in m ==> n <= k;
    n
  }

  /** Below which nonce a list is ready, when `start` is expected: its first run, unless that starts later. */
  ghost function ReadyEnd(m: Slots, start: nat): nat {
    if m == map[] || LowestKey(m) > start then 0 else RunEnd(m, LowestKey(m))
  }

  lemma HasKey(m: Slots)
    requires m != map[]
    ensures exists n :: n in m && forall k :: k in m ==> n <= k
  {
    assert m.Keys != {};
    var n := LowestExists(m.Keys);
  }

  /** The contents in the order of nonces. */
  ghost function Order(m: Slots): seq<Tx>
    decreases |m|
  {
    if m == map[] then []
    else
      var n := LowestKey(m);
      assert m.Keys == (m - {n}).Keys + {n};
      [m[n]] + Order(m - {n})
  }

  lemma OrderStep(m: Slots, n: nat)
    requires n in m && forall k :: k in m ==> n <= k
    ensures Order(m) == [m[n]] + Order(m - {n}) && |m - {n}| == |m| - 1
  {
    assert m != map[];
    assert LowestKey(m) == n;
    assert m.Keys == (m - {n}).Keys + {n};
  }

  lemma OrderNone(m: Slots)
    requires forall n :: n !in m
    ensures Order(m) == []
  {
    assert m == map[];
  }

  lemma {:induction false} OrderSize(m: Slots)
    ensures |Order(m)| == |m|
    decreases |m|
  {
    hide Order;
    if m == map[] {
      OrderNone(m);
    } else {
      var n := LowestKey(m);
      OrderStep(m, n);
      OrderSize(m - {n});
    }
  }

  /** The order has exactly the contents. */
  lemma {:induction false} OrderHas(m: Slots, tx: Tx)
    requires Keyed(m)
    ensures tx in Order(m) <==> tx.nonce in m && m[tx.nonce] == tx
    decreases |m|
  {
    hide Order;
    if m == map[] {
      OrderNone(m);
    } else {
      var n := LowestKey(m);
      OrderStep(m, n);
      OrderHas(m - {n}, tx);
    }
  }

  /** The order is that of increasing nonces. */
  lemma {:induction false} OrderAscends(m: Slots, i: nat, j: nat)
    requires Keyed(m) && i < j < |Order(m)|
    ensures Order(m)[i].nonce < Order(m)[j].nonce
    decreases |m|
  {
    hide Order;
    if m == map[] {
      OrderNone(m);
    } else {
      var n := LowestKey(m);
      OrderStep(m, n);
      var rest := Order(m - {n});
      if i == 0 {
        OrderHas(m - {n}, rest[j - 1]);
      } else {
        OrderAscends(m - {n}, i - 1, j - 1);
      }
    }
  }

  /** The parts of a list without its lowest nonce. */
  lemma SplitParts(m: Slots, n: nat, b: nat)
    requires n in m && forall k :: k in m ==> n <= k
    ensures n < b ==> n in Below(m, b) && Below(m, b)[n] == m[n] && forall k :: k in Below(m, b) ==> n <= k
    ensures n < b ==> Below(m, b) - {n} == Below(m - {n}, b) && From(m - {n}, b) == From(m, b)
    ensures n >= b ==> Below(m, b) == map[] && From(m, b) == m
  {
  }

  lemma Chain<T>(x: T, a: seq<T>, b: seq<T>)
    ensures [x] + (a + b) == ([x] + a) + b && [] + b == b
  {
  }

  /** The order falls into two at every nonce. */
  lemma {:induction false} OrderSplit(m: Slots, b: nat)
    ensures Order(m) == Order(Below(m, b)) + Order(From(m, b))
    decreases |m|
  {
    hide Order, Below, From;
    if m == map[] {
      OrderNone(m);
      NoParts(b);
    } else {
      var n := LowestKey(m);
      var m' := m - {n};
      OrderStep(m, n);
      SplitParts(m, n, b);
      Chain(m[n], Order(Below(m', b)), Order(From(m', b)));
      if n < b {
        OrderSplit(m', b);
        OrderStep(Below(m, b), n);
      } else {
        OrderNone(Below(m, b));
        Chain(m[n], [], Order(m));
      }
    }
  }

  lemma NoParts(b: nat)
    ensures Below(map[], b) == map[] && From(map[], b) == map[]
  {
  }

  lemma SameFront(a: seq<Tx>, b: seq<Tx>, c: seq<Tx>)
    requires a + c == b + c
    ensures a == b
  {
    assert |a| == |b| && a == (a + c)[..|a|] && b == (b + c)[..|b|];
  }

  // ---------------------------------------------------------------- the heap of keys

  ghost predicate Indexes(h: seq<nat>, m: Slots) {
    IsHeap(h) && multiset(h) == multiset(m.Keys)
  }

  /** The top of the heap is the lowest nonce. */
  lemma TopIsLowest(h: seq<nat>, m: Slots)
    requires Indexes(h, m)
    ensures h != [] <==> m != map[]
    ensures h != [] ==> h[0] in m && forall n :: n in m ==> h[0] <= n
    ensures forall x :: x in h <==> x in m
    ensures |h| == |m|
  {
    forall x ensures x in h <==> x in m {
      assert x in multiset(h) <==> x in multiset(m.Keys);
    }
    if h != [] {
      assert h[0] in h;
      HeapTop(h);
    }
    assert |multiset(h)| == |multiset(m.Keys)|;
    if m != map[] { var n :| n in m; }
  }

  lemma IndexWithout(m: Slots, n: nat)
    requires n in m
    ensures multiset((m - {n}).Keys) == multiset(m.Keys) - multiset{n}
  {
    assert (m - {n}).Keys == m.Keys - {n};
  }

  lemma IndexWith(m: Slots, tx: Tx)
    requires tx.nonce !in m
    ensures multiset(m[tx.nonce := tx].Keys) == multiset(m.Keys) + multiset{tx.nonce}
  {
    assert m[tx.nonce := tx].Keys == m.Keys + {tx.nonce};
  }

  // ---------------------------------------------------------------- the sorted map

  class SortedMap {
    var items: Slots
    var index: seq<nat>
    var cache: Option<seq<Tx>>

    /** The heap holds exactly the keys, and a cached order is the order of the contents. */
    ghost predicate Valid()
      reads this
    {
      Keyed(items) && Indexes(index, items) && (cache.Some? ==> cache.value == Order(items))
    }

    constructor ()
      ensures Valid() && items == map[]
    {
      items, index, cache := map[], [], None;
    }

    function Get(nonce: nat): Option<Tx>
      reads this
    {
      if nonce in items then Some(items[nonce]) else None
    }

    function Len(): nat
      reads this
    {
      |items|
    }

    /** `Put` */
    method Put(tx: Tx)
      requires Valid()
      modifies this
      ensures Valid() && items == old(items)[tx.nonce := tx]
    {
      if tx.nonce !in items {
        IndexWith(items, tx);
        index := HeapPush(index, tx.nonce);
      } else {
        assert items[tx.nonce := tx].Keys == items.Keys;
      }
      items, cache := items[tx.nonce := tx], None;
    }

    /** The heap and the map give up their lowest nonce. */
    method PopLowest() returns (tx: Tx)
      requires Keyed(items) && Indexes(index, items) && |index| > 0
      modifies this`items, this`index
      ensures tx.nonce == old(index[0]) && tx.nonce in old(items) && tx == old(items)[tx.nonce]
      ensures forall n :: n in old(items) ==> tx.nonce <= n
      ensures items == old(items) - {tx.nonce} && Keyed(items) && Indexes(index, items) && |index| == |old(index)| - 1
      ensures Order(old(items)) == [tx] + Order(items)
    {
      hide Order, IsHeap;
      TopIsLowest(index, items);
      IndexWithout(items, index[0]);
      OrderStep(items, index[0]);
      var nonce;
      nonce, index := HeapPop(index);
      tx := items[nonce];
      items := items - {nonce};
      assert |multiset(index)| == |multiset(old(index))| - 1;
    }

    /** `Forward`: everything below a nonce leaves, lowest first. */
    method Forward(threshold: nat) returns (removed: seq<Tx>)
      requires Valid()
      modifies this
      ensures Valid() && items == From(old(items), threshold)
      ensures removed == Order(Below(old(items), threshold))
    {
      hide Order, Indexes;
      removed := [];
      ghost var m0 := items;
      ghost var b: nat := 0;
      FromAll(m0);
      while |index| > 0 && index[0] < threshold
        invariant Keyed(items) && Indexes(index, items) && cache == old(cache)
        invariant items == From(m0, b) && b <= threshold
        invariant Order(m0) == removed + Order(items)
        decreases |index|
      {
        ghost var m1 := items;
        var tx := PopLowest();
        FromNext(m0, b, tx.nonce);
        assert removed + ([tx] + Order(items)) == (removed + [tx]) + Order(items);
        removed := removed + [tx];
        b := tx.nonce + 1;
      }
      TopIsLowest(index, items);
      FromHigher(m0, b, threshold);
      OrderSplit(m0, threshold);
      SameFront(removed, Order(Below(m0, threshold)), Order(items));
      if cache.Some? {
        cache := Some(cache.value[|removed|..]);
      }
    }


    /** `Filter`: everything that a test picks leaves, in no particular order. */
    method Filter(pick: Tx -> bool) returns (removed: seq<Tx>)
      requires Valid()
      modifies this
      ensures Valid() && items == Unpicked(old(items), pick)
      ensures multiset(removed) == multiset(Order(Picked(old(items), pick)))
    {
      hide Order, IsHeap;
      removed, items := PickOut(items, pick);
      if |removed| > 0 {
        index := ListKeys(items);
        index := HeapInit(index);
        cache := None;
      } else {
        NonePicked(old(items), pick);
      }
    }

    /** `Cap`: at most so many stay, the ones with the lowest nonces; the others leave, highest
        nonce first. */
    method Cap(threshold: nat) returns (drops: seq<Tx>, ghost bound: nat)
      requires Valid()
      modifies this
      ensures Valid() && items == Below(old(items), bound)
      ensures |old(items)| <= threshold ==> items == old(items) && drops == []
      ensures |old(items)| > threshold ==> |items| == threshold
      ensures Mirror(drops, Order(From(old(items), bound)))
    {
      hide Order, IsHeap, Indexes, Below, From, KeySeq, Sort;
      bound := Above(items);
      if |items| <= threshold {
        return [], bound;
      }
      drops := [];
      ghost var m0 := items;
      SortedIndex(index, items);
      index := Sort(index);
      var size := |items|;
      while size > threshold
        invariant threshold <= size <= |index| && index == KeySeq(m0) && cache == old(cache)
        invariant items == Below(m0, bound) && |items| == size && |drops| == |index| - size
        invariant Mirror(drops, Order(From(m0, bound)))
      {
        var n := index[size - 1];
        CapStep(m0, bound, n, drops);
        SameIn(m0, bound, n);
        drops := drops + [items[n]];
        items := items - {n};
        bound := n;
        size := size - 1;
      }
      TrimIndex(m0, bound);
      KeyedPart(m0, bound);
      index := HeapInit(index[..threshold]);
      IndexOf(index, items);
      OrderSplit(m0, bound);
      OrderSize(items);
      if cache.Some? {
        cache := Some(cache.value[..|cache.value| - |drops|]);
      }
    }

    /** `Remove` */
    method Remove(nonce: nat) returns (found: bool)
      requires Valid()
      modifies this
      ensures Valid() && found == (nonce in old(items)) && items == old(items) - {nonce}
    {
      hide Order, IsHeap;
      if nonce !in items {
        assert items - {nonce} == items;
        return false;
      }
      TopIsLowest(index, items);
      assert nonce in index;
      var i := 0;
      while index[i] != nonce
        invariant i < |index| && nonce !in index[..i]
        decreases |index| - i
      {
        i := i + 1;
      }
      IndexWithout(items, nonce);
      index := HeapRemove(index, i);
      items := items - {nonce};
      cache := None;
      return true;
    }

    /** `Ready`: the run of consecutive nonces from the lowest on leaves, if that one is not
        beyond the start. No more nonces follow the run. */
    method Ready(start: nat) returns (ready: seq<Tx>)
      requires Valid()
      modifies this
      ensures Valid()
      ensures var m, n := old(items), if old(items) == map[] then start + 1 else LowestKey(old(items));
              if n > start then ready == [] && items == m
              else ready == Order(Below(m, RunEnd(m, n))) && items == From(m, RunEnd(m, n))
                   && |ready| == RunEnd(m, n) - n
    {
      hide Order, Indexes, From, Below, RunEnd;
      TopIsLowest(index, items);
      ghost var m := items;
      if |index| == 0 || index[0] > start {
        return [];
      }
      var next := index[0];
      ghost var first := next;
      var tx := PopLowest();
      ready := [tx];
      FromAll(m);
      FromNext(m, 0, first);
      assert LowestKey(m) == first;
      RunStep(m, first);
      next := next + 1;
      while |index| > 0 && index[0] == next
        invariant Keyed(items) && Indexes(index, items)
        invariant items == From(m, next) && Order(m) == ready + Order(items)
        invariant next == first + |ready| && RunEnd(m, next) == RunEnd(m, first)
        decreases |index|
      {
        FromHas(m, next, next);
        RunStep(m, next);
        tx := PopLowest();
        FromNext(m, next, next);
        assert ready + ([tx] + Order(items)) == (ready + [tx]) + Order(items);
        ready := ready + [tx];
        next := next + 1;
      }
      TopIsLowest(index, items);
      FromHas(m, next, next);
      RunStep(m, next);
      OrderSplit(m, next);
      SameFront(ready, Order(Below(m, next)), Order(items));
      cache := None;
    }

    /** `Flatten`: the contents by nonce, from the cache when there is one. */
    method Flatten() returns (txs: seq<Tx>)
      requires Valid()
      modifies this`cache
      ensures Valid() && txs == Order(items) && cache == Some(txs)
    {
      hide Order, IsHeap;
      if cache.None? {
        var all := ListTxs(items);
        SortTxsOrder(all, items);
        cache := Some(SortTxs(all));
      }
      txs := cache.value;
    }
  }

  // ---------------------------------------------------------------- sorting transactions

  function InsertTx(s: seq<Tx>, x: Tx): seq<Tx> {
    if s == [] then [x]
    else if x.nonce <= s[0].nonce then [x] + s
    else [s[0]] + InsertTx(s[1..], x)
  }

  /** `sort.Sort` by nonce, by insertion. */
  function SortTxs(s: seq<Tx>): seq<Tx> {
    if s == [] then [] else InsertTx(SortTxs(s[1..]), s[0])
  }

  /** All transactions of a map, in no particular order. */
  method ListTxs(m: Slots) returns (txs: seq<Tx>)
    ensures multiset(txs) == multiset(Order(m))
  {
    hide Order;
    txs := [];
    var rest := m;
    while rest != map[]
      invariant multiset(txs) + multiset(Order(rest)) == multiset(Order(m))
      decreases |rest|
    {
      var n :| n in rest;
      OrderDrop(rest, n);
      assert rest.Keys == (rest - {n}).Keys + {n};
      txs, rest := txs + [rest[n]], rest - {n};
    }
    OrderNone(rest);
  }

  lemma {:induction false} InsertInOrder(m: Slots, n: nat)
    requires Keyed(m) && n in m
    ensures InsertTx(Order(m - {n}), m[n]) == Order(m)
    decreases |m|
  {
    hide Order;
    var l := LowestKey(m);
    OrderStep(m, l);
    if l == n {
      if m - {n} == map[] {
        OrderNone(m - {n});
      } else {
        OrderStep(m - {n}, LowestKey(m - {n}));
      }
    } else {
      OrderStep(m - {n}, l);
      assert m - {n} - {l} == m - {l} - {n};
      InsertInOrder(m - {l}, n);
      assert ([m[l]] + Order(m - {l} - {n}))[1..] == Order(m - {l} - {n});
    }
  }

  /** Sorting by nonce gives the order of the contents. */
  lemma {:induction false} SortTxsOrder(txs: seq<Tx>, m: Slots)
    requires Keyed(m) && multiset(txs) == multiset(Order(m))
    ensures SortTxs(txs) == Order(m)
  {
    hide Order;
    if txs == [] {
      assert |multiset(Order(m))| == 0;
    } else {
      var x := txs[0];
      assert txs == [x] + txs[1..];
      assert x in multiset(Order(m));
      OrderHas(m, x);
      OrderDrop(m, x.nonce);
      assert multiset(txs[1..]) == multiset(txs) - multiset{x};
      SortTxsOrder(txs[1..], m - {x.nonce});
      InsertInOrder(m, x.nonce);
    }
  }

  // ---------------------------------------------------------------- parts of the contents

  ghost function Picked(m: Slots, pick: Tx -> bool): Slots {
    map n | n in m && pick(m[n]) :: m[n]
  }

  ghost function Unpicked(m: Slots, pick: Tx -> bool): Slots {
    map n | n in m && !pick(m[n]) :: m[n]
  }

  lemma NonePicked(m: Slots, pick: Tx -> bool)
    requires multiset(Order(Picked(m, pick))) == multiset{}
    ensures Unpicked(m, pick) == m
  {
    OrderSize(Picked(m, pick));
    assert |multiset(Order(Picked(m, pick)))| == 0;
    forall n | n in m ensures !pick(m[n]) {
      assert n !in Picked(m, pick);
    }
  }

  /** The order without one element. */
  lemma {:induction false} OrderDrop(m: Slots, n: nat)
    requires n in m
    ensures multiset(Order(m)) == multiset(Order(m - {n})) + multiset{m[n]}
    decreases |m|
  {
    hide Order;
    var l := LowestKey(m);
    OrderStep(m, l);
    if l != n {
      OrderDrop(m - {l}, n);
      OrderStep(m - {n}, l);
      assert m - {l} - {n} == m - {n} - {l};
    }
  }

  /** The loop of `Filter` over the map. */
  method PickOut(m: Slots, pick: Tx -> bool) returns (removed: seq<Tx>, kept: Slots)
    ensures kept == Unpicked(m, pick) && multiset(removed) == multiset(Order(Picked(m, pick)))
  {
    hide Order;
    removed, kept := [], m;
    var rest := m;
    while rest != map[]
      invariant forall n :: n in rest ==> n in m && rest[n] == m[n]
      invariant forall n :: n in kept <==> n in m && (n in rest || !pick(m[n]))
      invariant forall n :: n in kept ==> kept[n] == m[n]
      invariant multiset(removed) + multiset(Order(Picked(rest, pick))) == multiset(Order(Picked(m, pick)))
      decreases |rest|
    {
      var nonce :| nonce in rest;
      var tx := rest[nonce];
      PickedStep(rest, pick, nonce);
      if pick(tx) {
        removed := removed + [tx];
        kept := kept - {nonce};
      }
      assert rest.Keys == (rest - {nonce}).Keys + {nonce};
      rest := rest - {nonce};
    }
    OrderNone(Picked(rest, pick));
  }

  lemma PickedStep(m: Slots, pick: Tx -> bool, n: nat)
    requires n in m
    ensures multiset(Order(Picked(m, pick))) ==
            multiset(Order(Picked(m - {n}, pick))) + if pick(m[n]) then multiset{m[n]} else multiset{}
  {
    hide Order;
    var p, p' := Picked(m, pick), Picked(m - {n}, pick);
    if pick(m[n]) {
      assert p' == p - {n};
      OrderDrop(p, n);
    } else {
      assert p' == p;
    }
  }

  method ListKeys(m: Slots) returns (ks: seq<nat>)
    ensures multiset(ks) == multiset(m.Keys)
  {
    ks := [];
    var rest := m;
    while rest != map[]
      invariant multiset(ks) + multiset(rest.Keys) == multiset(m.Keys)
      decreases |rest|
    {
      var n :| n in rest;
      IndexWithout(rest, n);
      assert rest.Keys == (rest - {n}).Keys + {n};
      ks, rest := ks + [n], rest - {n};
    }
  }

  /** One sequence is the other backwards. */
  ghost predicate Mirror(a: seq<Tx>, b: seq<Tx>) {
    |a| == |b| && forall i :: 0 <= i < |a| ==> a[i] == b[|b| - 1 - i]
  }

  /** A number above all nonces. */
  ghost function Above(m: Slots): (b: nat)
    ensures Below(m, b) == m && Order(From(m, b)) == []
    decreases |m|
  {
    if m == map[] then
      OrderNone(From(m, 0));
      0
    else
      var n := LowestKey(m);
      assert m.Keys == (m - {n}).Keys + {n};
      var b := Above(m - {n});
      var top := if b > n then b else n + 1;
      assert forall k :: k in m - {n} ==> k < b by { assert forall k :: k in m - {n} ==> k in Below(m - {n}, b); }
      OrderNone(From(m, top));
      top
  }

  /** The keys in increasing order. */
  ghost function KeySeq(m: Slots): (ks: seq<nat>)
    ensures |ks| == |m|
    decreases |m|
  {
    if m == map[] then []
    else
      var n := LowestKey(m);
      assert m.Keys == (m - {n}).Keys + {n};
      [n] + KeySeq(m - {n})
  }

  lemma KeyStep(m: Slots, n: nat)
    requires n in m && forall k :: k in m ==> n <= k
    ensures KeySeq(m) == [n] + KeySeq(m - {n}) && |m - {n}| == |m| - 1
  {
    assert m != map[];
    assert LowestKey(m) == n;
    assert m.Keys == (m - {n}).Keys + {n};
  }

  lemma KeyNone(m: Slots)
    requires forall n :: n !in m
    ensures KeySeq(m) == []
  {
    assert m == map[];
  }

  lemma {:induction false} KeySeqKeys(m: Slots)
    ensures multiset(KeySeq(m)) == multiset(m.Keys) && Ascending(KeySeq(m))
    decreases |m|
  {
    hide KeySeq;
    if m == map[] {
      KeyNone(m);
    } else {
      var n := LowestKey(m);
      KeyStep(m, n);
      KeySeqKeys(m - {n});
      IndexWithout(m, n);
      var rest := KeySeq(m - {n});
      forall i | 0 <= i < |rest| ensures n <= rest[i] {
        assert rest[i] in multiset(rest);
      }
    }
  }

  /** The last of the keys in order is the highest. */
  lemma {:induction false} LastKey(m: Slots)
    requires m != map[]
    ensures var n := KeySeq(m)[|m| - 1]; n in m && forall k :: k in m ==> k <= n
  {
    KeySeqKeys(m);
    var ks := KeySeq(m);
    var n := ks[|m| - 1];
    assert n in multiset(ks);
    forall k | k in m ensures k <= n {
      assert k in multiset(ks);
    }
  }

  lemma {:induction false} KeySplit(m: Slots, b: nat)
    ensures KeySeq(m) == KeySeq(Below(m, b)) + KeySeq(From(m, b))
    decreases |m|
  {
    hide KeySeq, Below, From;
    if m == map[] {
      KeyNone(m);
      NoParts(b);
    } else {
      var n := LowestKey(m);
      var m' := m - {n};
      KeyStep(m, n);
      SplitParts(m, n, b);
      Chain(n, KeySeq(Below(m', b)), KeySeq(From(m', b)));
      if n < b {
        KeySplit(m', b);
        KeyStep(Below(m, b), n);
      } else {
        KeyNone(Below(m, b));
        Chain(n, [], KeySeq(m));
      }
    }
  }

  lemma FirstIsLeast(a: seq<nat>, x: nat)
    requires Ascending(a) && x in multiset(a)
    ensures a != [] && a[0] <= x
  {
    var i :| 0 <= i < |a| && a[i] == x;
  }

  lemma TailOf(a: seq<nat>)
    requires a != []
    ensures multiset(a[1..]) == multiset(a) - multiset{a[0]} && a[0] in multiset(a)
    ensures Ascending(a) ==> Ascending(a[1..])
    ensures a == [a[0]] + a[1..]
  {
    assert a == [a[0]] + a[1..];
  }

  /** Sorting leaves no choice. */
  lemma {:induction false} SortUnique(a: seq<nat>, b: seq<nat>)
    requires Ascending(a) && Ascending(b) && multiset(a) == multiset(b)
    ensures a == b
  {
    hide Ascending;
    SameFirst(a, b);
    if a != [] {
      TailOf(a);
      TailOf(b);
      SortUnique(a[1..], b[1..]);
    }
  }

  lemma SameFirst(a: seq<nat>, b: seq<nat>)
    requires Ascending(a) && Ascending(b) && multiset(a) == multiset(b)
    ensures a == [] <==> b == []
    ensures a != [] ==> a[0] == b[0]
  {
    hide Ascending;
    if a != [] {
      TailOf(a);
      FirstIsLeast(b, a[0]);
    }
    if b != [] {
      TailOf(b);
      FirstIsLeast(a, b[0]);
    }
  }

  /** A sorted index is the keys in order. */
  lemma SortedIndex(h: seq<nat>, m: Slots)
    requires Indexes(h, m)
    ensures Sort(h) == KeySeq(m)
  {
    hide KeySeq, Sort;
    SortAscending(h);
    KeySeqKeys(m);
    SortUnique(Sort(h), KeySeq(m));
  }

  lemma HighestOut(m: Slots, b: nat, n: nat)
    requires n in Below(m, b) && forall k :: k in Below(m, b) ==> k <= n
    ensures Below(m, b) - {n} == Below(m, n) && |Below(m, n)| == |Below(m, b)| - 1
  {
    assert Below(m, b).Keys == (Below(m, b) - {n}).Keys + {n};
    assert Below(m, b) - {n} == Below(m, n);
  }

  lemma HighestIn(m: Slots, b: nat, n: nat)
    requires n in Below(m, b) && forall k :: k in Below(m, b) ==> k <= n
    ensures n in From(m, n) && From(m, n) - {n} == From(m, b) && forall k :: k in From(m, n) ==> n <= k
  {
    forall k ensures k in From(m, n) && k != n <==> k in From(m, b) {
      assert k in m && k < b ==> k in Below(m, b);
    }
  }

  /** The highest of the remaining nonces leaves. */
  lemma CapStep(m: Slots, b: nat, n: nat, drops: seq<Tx>)
    requires 0 < |Below(m, b)| <= |m| && n == KeySeq(m)[|Below(m, b)| - 1]
    requires Mirror(drops, Order(From(m, b)))
    ensures n in Below(m, b) && Below(m, b) - {n} == Below(m, n) && |Below(m, n)| == |Below(m, b)| - 1
    ensures Mirror(drops + [m[n]], Order(From(m, n)))
  {
    hide KeySeq, Order, Below, From;
    KeySplit(m, b);
    assert Below(m, b) != map[];
    LastKey(Below(m, b));
    HighestOut(m, b, n);
    HighestIn(m, b, n);
    OrderStep(From(m, n), n);
    PartOf(m, n);
  }

  lemma SameIn(m: Slots, b: nat, n: nat)
    ensures n in Below(m, b) ==> n in m && Below(m, b)[n] == m[n]
  {
  }

  lemma KeyedPart(m: Slots, b: nat)
    ensures Keyed(m) ==> Keyed(Below(m, b))
  {
  }

  lemma PartOf(m: Slots, n: nat)
    ensures n in From(m, n) ==> n in m && From(m, n)[n] == m[n]
  {
  }

  lemma TrimIndex(m: Slots, b: nat)
    ensures |Below(m, b)| <= |m| && KeySeq(m)[..|Below(m, b)|] == KeySeq(Below(m, b))
    ensures multiset(KeySeq(Below(m, b))) == multiset(Below(m, b).Keys)
  {
    hide KeySeq;
    KeySplit(m, b);
    KeySeqKeys(Below(m, b));
  }

  lemma IndexOf(h: seq<nat>, m: Slots)
    requires IsHeap(h) && multiset(h) == multiset(m.Keys)
    ensures Indexes(h, m)
  {
  }

  lemma FromAll(m: Slots)
    ensures From(m, 0) == m
  {
  }

  lemma RunStep(m: Slots, n: nat)
    ensures RunEnd(m, n) == if n in m then RunEnd(m, n + 1) else n
  {
  }

  lemma FromHas(m: Slots, b: nat, n: nat)
    requires b <= n
    ensures n in From(m, b) <==> n in m
    ensures forall k :: k in From(m, b) ==> b <= k
  {
  }

  lemma FromNext(m: Slots, b: nat, n: nat)
    requires n in From(m, b) && forall k :: k in From(m, b) ==> n <= k
    ensures From(m, b) - {n} == From(m, n + 1)
  {
  }

  lemma FromHigher(m: Slots, b: nat, n: nat)
    requires b <= n && forall k :: k in From(m, b) ==> n <= k
    ensures From(m, b) == From(m, n)
  {
  }
}
