/**
 The pool's transactions by price: a heap from which removed transactions are deleted lazily. It
 always has every pooled transaction, so the cheapest pooled one is found at its top once stale
 entries have been taken off.
 */
module TxPriced {
  import opened TxSortedMap

  /** The order of the heap: the cheaper first, of equally cheap ones the higher nonce. */
  predicate Before(a: Tx, b: Tx) {
    a.price < b.price || (a.price == b.price && a.nonce > b.nonce)
  }

  ghost predicate Priced(h: seq<Tx>, i: nat) {
    0 < i < |h| ==> !Before(h[i], h[(i - 1) / 2])
  }

  ghost predicate IsPriceHeap(h: seq<Tx>) {
    forall i {:trigger Priced(h, i)} :: Priced(h, i)
  }

  lemma {:induction false} PriceHeapMin(h: seq<Tx>, i: nat)
    requires IsPriceHeap(h) && i < |h|
    ensures !Before(h[i], h[0])
  {
    if i > 0 {
      assert Priced(h, i);
      PriceHeapMin(h, (i - 1) / 2);
    }
  }

  lemma PriceTop(h: seq<Tx>)
    requires IsPriceHeap(h) && h != []
    ensures forall x :: x in h ==> !Before(x, h[0])
  {
    forall x | x in h ensures !Before(x, h[0]) {
      var i :| 0 <= i < |h| && h[i] == x;
      PriceHeapMin(h, i);
    }
  }

  function InsertByPrice(h: seq<Tx>, x: Tx): (r: seq<Tx>)
    ensures multiset(r) == multiset(h) + multiset{x}
  {
    if h == [] then [x]
    else if !Before(h[0], x) then [x] + h
    else
      assert h == [h[0]] + h[1..];
      [h[0]] + InsertByPrice(h[1..], x)
  }

  function SortByPrice(h: seq<Tx>): (r: seq<Tx>)
    ensures multiset(r) == multiset(h)
  {
    if h == [] then []
    else
      assert h == [h[0]] + h[1..];
      InsertByPrice(SortByPrice(h[1..]), h[0])
  }

  ghost predicate Rising(h: seq<Tx>) {
    forall i, j :: 0 <= i < j < |h| ==> !Before(h[j], h[i])
  }

  lemma {:induction false} InsertRising(h: seq<Tx>, x: Tx)
    requires Rising(h)
    ensures Rising(InsertByPrice(h, x))
  {
    if h != [] && Before(h[0], x) {
      InsertRising(h[1..], x);
      var r := InsertByPrice(h[1..], x);
      forall i | 0 <= i < |r| ensures !Before(r[i], h[0]) {
        assert r[i] in multiset(r);
        assert r[i] == x || r[i] in h[1..];
      }
    }
  }

  lemma {:induction false} SortRising(h: seq<Tx>)
    ensures Rising(SortByPrice(h))
  {
    if h != [] {
      SortRising(h[1..]);
      InsertRising(SortByPrice(h[1..]), h[0]);
    }
  }

  // The standard library's heap operations, by what they promise.

  method PushPrice(h: seq<Tx>, x: Tx) returns (r: seq<Tx>)
    ensures IsPriceHeap(r) && multiset(r) == multiset(h) + multiset{x}
  {
    SortRising(h);
    InsertRising(SortByPrice(h), x);
    r := InsertByPrice(SortByPrice(h), x);
  }

  method InitPrice(h: seq<Tx>) returns (r: seq<Tx>)
    ensures IsPriceHeap(r) && multiset(r) == multiset(h)
  {
    SortRising(h);
    r := SortByPrice(h);
  }

  method PopPrice(h: seq<Tx>) returns (x: Tx, r: seq<Tx>)
    requires IsPriceHeap(h) && h != []
    ensures x == h[0] && IsPriceHeap(r) && multiset(h) == multiset(r) + multiset{x} && |r| == |h| - 1
    ensures forall y :: y in r ==> !Before(y, x)
  {
    PriceTop(h);
    x := h[0];
    assert h == [h[0]] + h[1..];
    r := InitPrice(h[1..]);
    assert |multiset(r)| == |multiset(h[1..])|;
    forall y | y in r ensures !Before(y, x) {
      assert y in multiset(r);
      assert y in h[1..];
    }
  }

  // ---------------------------------------------------------------- what the heap promises

  /** Every pooled transaction has an entry. */
  ghost predicate Covers(items: seq<Tx>, all: set<Tx>) {
    forall tx :: tx in all ==> tx in items
  }

  /** No transaction has two entries. */
  ghost predicate Single(items: seq<Tx>) {
    forall tx :: multiset(items)[tx] <= 1
  }

  ghost predicate Local(tx: Tx, locals: set<Addr>) {
    tx.sender in locals
  }

  ghost function SetOf(s: seq<Tx>): set<Tx> {
    set tx | tx in s
  }

  /** The entries of some transactions. */
  ghost function EntriesOf(h: seq<Tx>, s: set<Tx>): seq<Tx> {
    if h == [] then [] else (if h[0] in s then [h[0]] else []) + EntriesOf(h[1..], s)
  }

  /** A pooled transaction that is not local and has more than one entry. */
  ghost predicate Doubled(h: seq<Tx>, all: set<Tx>, locals: set<Addr>, x: Tx) {
    x in all && x.sender !in locals && multiset(h)[x] > 1
  }

  /** The pooled transactions, not local, that leave before one. */
  ghost function Cheaper(all: set<Tx>, locals: set<Addr>, x: Tx): set<Tx> {
    set y | y in all && y.sender !in locals && Before(y, x)
  }

  /** The pooled transactions, not local, that may leave before one: those, and the equally cheap. */
  ghost function Rivals(all: set<Tx>, locals: set<Addr>, x: Tx): set<Tx> {
    set y | y in all && y.sender !in locals && y != x && !Before(x, y)
  }

  /** Two entries of a transaction may be among the `count` cheapest. */
  ghost predicate MayMiscount(h: seq<Tx>, all: set<Tx>, locals: set<Addr>, count: int) {
    exists x :: Doubled(h, all, locals, x) && |EntriesOf(h, Cheaper(all, locals, x))| + 2 <= count
  }

  /** Two entries of a transaction are among the `count` cheapest. */
  ghost predicate MustMiscount(h: seq<Tx>, all: set<Tx>, locals: set<Addr>, count: int) {
    exists x :: Doubled(h, all, locals, x) && |EntriesOf(h, Rivals(all, locals, x))| + 2 <= count
  }

  class PricedList {
    var items: seq<Tx>
    var stales: int

    ghost predicate Valid(all: set<Tx>)
      reads this
    {
      IsPriceHeap(items) && Covers(items, all)
    }

    /** The stale counter is right. */
    ghost predicate Accurate(all: set<Tx>)
      reads this
    {
      stales == |items| - |all|
    }

    constructor ()
      ensures Valid({}) && Accurate({}) && items == [] && stales == 0
    {
      items, stales := [], 0;
    }

    /** `Put` */
    method Put(tx: Tx, ghost all: set<Tx>)
      requires Valid(all)
      modifies this
      ensures Valid(all + {tx}) && multiset(items) == multiset(old(items)) + multiset{tx} && stales == old(stales)
      ensures tx !in all && old(Accurate(all)) ==> Accurate(all + {tx})
    {
      items := PushPrice(items, tx);
      CoversMore(old(items), items, all, tx);
    }

    /** `Removed`: the counter moves, and with too many stale entries the heap is built anew. It
        is told after the transaction has left the pool. */
    method Removed(all: set<Tx>)
      requires Valid(all)
      modifies this
      ensures Valid(all)
      ensures old(stales) + 1 == old(|items|) - |all| ==> Accurate(all)
      ensures items == old(items) || multiset(items) == multiset(all)
      ensures (old(stales) + 1) <= old(|items|) / 4 ==> items == old(items) && stales == old(stales) + 1
      ensures (old(stales) + 1) > old(|items|) / 4 ==> multiset(items) == multiset(all) && stales == 0 && Accurate(all)
    {
      stales := stales + 1;
      if stales <= |items| / 4 {
        return;
      }
      var pooled := ListAll(all);
      items := InitPrice(pooled);
      stales := 0;
      Rebuilt(items, all);
    }

    /** `Underpriced`: stale entries are taken off the top; then the question is whether the
        cheapest pooled transaction is at least as dear. Local transactions never are. */
    method Underpriced(tx: Tx, locals: set<Addr>, all: set<Tx>) returns (r: bool)
      requires Valid(all)
      modifies this
      ensures Valid(all) && stales - |items| == old(stales - |items|)
      ensures forall x :: x in all ==> multiset(items)[x] == old(multiset(items))[x]
      ensures multiset(items) <= multiset(old(items))
      ensures r <==> tx.sender !in locals && all != {} && forall x :: x in all ==> tx.price <= x.price
    {
      if tx.sender in locals {
        return false;
      }
      while |items| > 0 && items[0] !in all
        invariant Valid(all) && stales - |items| == old(stales - |items|)
        invariant forall x :: x in all ==> multiset(items)[x] == old(multiset(items))[x]
        invariant multiset(items) <= multiset(old(items))
        decreases |items|
      {
        stales := stales - 1;
        ghost var h := items;
        var gone;
        gone, items := PopPrice(items);
        StaleOff(h, items, gone, all);
      }
      if |items| == 0 {
        assert forall x :: x in all ==> x in items;
        return false;
      }
      PriceTop(items);
      assert items[0] in all;
      return items[0].price >= tx.price;
    }

    /** `Discard`: so many of the cheapest pooled transactions that are not local, or all of them;
        they leave the heap, everything else stays. Entries are counted, not transactions: one is
        given twice if two of its entries are among the cheapest, and only then; with equally
        cheap ones the order of the heap decides. */
    method Discard(count: nat, locals: set<Addr>, all: set<Tx>) returns (drop: seq<Tx>)
      requires Valid(all)
      modifies this
      ensures Valid(all - SetOf(drop)) && |drop| <= count
      ensures forall d :: d in drop ==> d in all && d.sender !in locals
      ensures forall d, x :: d in drop && x in all && x !in drop && x.sender !in locals ==> !Before(x, d)
      ensures |drop| < count ==> forall x :: x in all && x.sender !in locals ==> x in drop
      ensures stales - |items| == old(stales - |items|) + |drop|
      ensures old(Single(items)) ==> Single(items)
      ensures !Single(drop) ==> MayMiscount(old(items), all, locals, count)
      ensures MustMiscount(old(items), all, locals, count) ==> !Single(drop)
    {
      hide IsPriceHeap, Single, Sorted, MayMiscount, MustMiscount;
      NothingSorted(items, all, locals);
      drop := [];
      var save: seq<Tx>, left := [], count;
      ghost var gone: multiset<Tx> := multiset{};
      while |items| > 0 && left > 0
        invariant IsPriceHeap(items) && left == count - |drop|
        invariant Sorted(old(items), items, save, drop, gone, all, locals)
        invariant forall x :: x in save ==> x.sender in locals
        invariant stales - old(stales) == |items| + |save| + |drop| - |old(items)|
        decreases |items|
      {
        ghost var h := items;
        var tx;
        tx, items := PopPrice(items);
        SortedOut(old(items), h, items, save, drop, gone, all, locals, tx);
        if tx !in all {
          stales := stales - 1;
          gone := gone + multiset{tx};
        } else if tx.sender in locals {
          save := save + [tx];
        } else {
          drop, left := drop + [tx], left - 1;
        }
      }
      ghost var rest := items;
      PushAll(save);
      AllBack(old(items), rest, save, drop, gone, all, locals, items);
      Placed(old(items), rest, save, drop, gone, all, locals);
      Miscounts(old(items), rest, save, drop, gone, all, locals, count);
    }

    /** Saved transactions go back. */
    method PushAll(save: seq<Tx>)
      requires IsPriceHeap(items)
      modifies this`items
      ensures IsPriceHeap(items) && multiset(items) == multiset(old(items)) + multiset(save)
      ensures |items| == old(|items|) + |save|
    {
      hide IsPriceHeap;
      var i := 0;
      while i < |save|
        invariant 0 <= i <= |save| && IsPriceHeap(items)
                  && multiset(items) == multiset(old(items)) + multiset(save[..i])
      {
        assert save[..i + 1] == save[..i] + [save[i]];
        items := PushPrice(items, save[i]);
        i := i + 1;
      }
      assert save[..i] == save;
      assert |multiset(items)| == |multiset(old(items))| + |multiset(save)|;
    }

    /** `Cap`: every pooled transaction below a price leaves the heap, unless it is local. */
    method Cap(threshold: nat, locals: set<Addr>, all: set<Tx>) returns (drop: seq<Tx>)
      requires Valid(all)
      modifies this
      ensures Valid(all - SetOf(drop))
      ensures forall x :: x in drop <==> x in all && x.sender !in locals && x.price < threshold
      ensures forall x :: x in drop ==> multiset(drop)[x] == old(multiset(items))[x]
      ensures stales - |items| == old(stales - |items|) + |drop|
      ensures old(Single(items)) ==> Single(items)
    {
      hide IsPriceHeap, Single, Sorted;
      NothingSorted(items, all, locals);
      drop := [];
      var save: seq<Tx> := [];
      ghost var gone: multiset<Tx> := multiset{};
      while |items| > 0
        invariant IsPriceHeap(items)
        invariant Sorted(old(items), items, save, drop, gone, all, locals)
        invariant forall x :: x in drop ==> x.price < threshold
        invariant forall x :: x in save ==> x.sender in locals
        invariant stales - old(stales) == |items| + |save| + |drop| - |old(items)|
        decreases |items|
      {
        ghost var h := items;
        var tx;
        tx, items := PopPrice(items);
        SortedOut(old(items), h, items, save, drop, gone, all, locals, tx);
        if tx !in all {
          stales := stales - 1;
          gone := gone + multiset{tx};
          continue;
        }
        if tx.price >= threshold {
          save := save + [tx];
          break;
        }
        if tx.sender in locals {
          save := save + [tx];
        } else {
          drop := drop + [tx];
        }
      }
      ghost var rest := items;
      PushAll(save);
      AllBack(old(items), rest, save, drop, gone, all, locals, items);
      Placed(old(items), rest, save, drop, gone, all, locals);
      AllCopies(old(items), rest, save, drop, gone, all, locals);
    }
  }

  /** Where the entries of a heap have gone: still there, saved, dropped or stale. */
  ghost predicate Sorted(h: seq<Tx>, items: seq<Tx>, save: seq<Tx>, drop: seq<Tx>, gone: multiset<Tx>,
                         all: set<Tx>, locals: set<Addr>)
  {
    && multiset(h) == multiset(items) + multiset(save) + multiset(drop) + gone
    && (forall d :: d in drop ==> d in all && d.sender !in locals)
    && (forall d, x :: d in drop && x in items ==> !Before(x, d))
    && (forall x :: x in gone ==> x !in all)
  }

  lemma NothingSorted(h: seq<Tx>, all: set<Tx>, locals: set<Addr>)
    ensures Sorted(h, h, [], [], multiset{}, all, locals)
  {
  }

  /** One more entry is taken off the heap. */
  lemma SortedOut(h0: seq<Tx>, h: seq<Tx>, items: seq<Tx>, save: seq<Tx>, drop: seq<Tx>, gone: multiset<Tx>,
                  all: set<Tx>, locals: set<Addr>, tx: Tx)
    requires Sorted(h0, h, save, drop, gone, all, locals) && multiset(h) == multiset(items) + multiset{tx}
    requires forall y :: y in items ==> !Before(y, tx)
    ensures tx !in all ==> Sorted(h0, items, save, drop, gone + multiset{tx}, all, locals)
    ensures Sorted(h0, items, save + [tx], drop, gone, all, locals)
    ensures tx in all && tx.sender !in locals ==> Sorted(h0, items, save, drop + [tx], gone, all, locals)
  {
    assert forall y :: y in items ==> y in multiset(items);
    assert forall y :: y in items ==> y in multiset(h);
    forall d, x | d in drop && x in items ensures !Before(x, d) {
      assert x in multiset(h);
      assert x in h;
    }
  }

  /** Every pooled transaction is still there, saved or dropped. */
  lemma Placed(h0: seq<Tx>, items: seq<Tx>, save: seq<Tx>, drop: seq<Tx>, gone: multiset<Tx>, all: set<Tx>,
               locals: set<Addr>)
    requires Sorted(h0, items, save, drop, gone, all, locals) && Covers(h0, all)
    ensures forall x :: x in all ==> x in items || x in save || x in drop
    ensures forall d :: d in drop ==> d in all && d.sender !in locals
    ensures forall d, x :: d in drop && x in items ==> !Before(x, d)
  {
    forall x | x in all ensures x in items || x in save || x in drop {
      assert x in multiset(h0);
      assert x in multiset(items) || x in multiset(save) || x in multiset(drop);
    }
  }

  lemma AllBack(h0: seq<Tx>, rest: seq<Tx>, save: seq<Tx>, drop: seq<Tx>, gone: multiset<Tx>, all: set<Tx>,
                locals: set<Addr>, items: seq<Tx>)
    requires Sorted(h0, rest, save, drop, gone, all, locals) && Covers(h0, all)
    requires multiset(items) == multiset(rest) + multiset(save)
    ensures Covers(items, all - SetOf(drop))
    ensures Single(h0) ==> Single(items)
  {
    Placed(h0, rest, save, drop, gone, all, locals);
    forall x | x in all - SetOf(drop) ensures x in items {
      assert x in multiset(rest) || x in multiset(save);
      assert x in multiset(items);
    }
    if Single(h0) {
      forall x ensures multiset(items)[x] <= 1 {
        assert multiset(h0)[x] <= 1;
        assert multiset(h0)[x] == multiset(rest)[x] + multiset(save)[x] + multiset(drop)[x] + gone[x];
      }
    }
  }

  /** Whatever is dropped and neither left nor saved is dropped with all its entries. */
  lemma AllCopies(h0: seq<Tx>, rest: seq<Tx>, save: seq<Tx>, drop: seq<Tx>, gone: multiset<Tx>, all: set<Tx>,
                  locals: set<Addr>)
    requires Sorted(h0, rest, save, drop, gone, all, locals)
    requires forall x :: x in drop ==> x !in rest && x !in save
    ensures forall x :: x in drop ==> multiset(drop)[x] == multiset(h0)[x]
  {
    forall x | x in drop ensures multiset(drop)[x] == multiset(h0)[x] {
      assert x !in multiset(rest) && x !in multiset(save) && x !in gone;
    }
  }

  lemma {:induction false} EntriesCount(h: seq<Tx>, s: set<Tx>, x: Tx)
    ensures multiset(EntriesOf(h, s))[x] == if x in s then multiset(h)[x] else 0
  {
    if h != [] {
      assert h == [h[0]] + h[1..];
      EntriesCount(h[1..], s, x);
    }
  }

  lemma SmallerBag(a: multiset<Tx>, b: multiset<Tx>)
    requires a <= b
    ensures |a| <= |b|
  {
    assert b == a + (b - a);
  }

  /** Entries that are all there among others are no more than those. */
  lemma EntriesWithin(h: seq<Tx>, s: set<Tx>, bag: multiset<Tx>)
    requires forall x :: x in s ==> multiset(h)[x] <= bag[x]
    ensures |EntriesOf(h, s)| <= |bag|
  {
    forall x ensures multiset(EntriesOf(h, s))[x] <= bag[x] { EntriesCount(h, s, x); }
    SmallerBag(multiset(EntriesOf(h, s)), bag);
  }

  lemma WithinEntries(h: seq<Tx>, s: set<Tx>, bag: multiset<Tx>)
    requires bag <= multiset(h) && forall x :: x in bag ==> x in s
    ensures |bag| <= |EntriesOf(h, s)|
  {
    forall x ensures bag[x] <= multiset(EntriesOf(h, s))[x] { EntriesCount(h, s, x); }
    SmallerBag(bag, multiset(EntriesOf(h, s)));
  }

  lemma SameEntries(h: seq<Tx>, h': seq<Tx>, s: set<Tx>)
    requires forall x :: x in s ==> multiset(h')[x] == multiset(h)[x]
    ensures |EntriesOf(h', s)| == |EntriesOf(h, s)|
  {
    forall x ensures multiset(EntriesOf(h', s))[x] == multiset(EntriesOf(h, s))[x] {
      EntriesCount(h, s, x);
      EntriesCount(h', s, x);
    }
    assert multiset(EntriesOf(h', s)) == multiset(EntriesOf(h, s));
    assert |multiset(EntriesOf(h', s))| == |EntriesOf(h', s)|;
  }

  /** Stale entries have no part in a miscount. */
  lemma SameMiscounts(h: seq<Tx>, h': seq<Tx>, all: set<Tx>, locals: set<Addr>, count: int)
    requires forall x :: x in all ==> multiset(h')[x] == multiset(h)[x]
    ensures MayMiscount(h', all, locals, count) <==> MayMiscount(h, all, locals, count)
    ensures MustMiscount(h', all, locals, count) <==> MustMiscount(h, all, locals, count)
  {
    forall x ensures |EntriesOf(h', Cheaper(all, locals, x))| == |EntriesOf(h, Cheaper(all, locals, x))|
      ensures |EntriesOf(h', Rivals(all, locals, x))| == |EntriesOf(h, Rivals(all, locals, x))|
      ensures Doubled(h', all, locals, x) <==> Doubled(h, all, locals, x)
    {
      SameEntries(h, h', Cheaper(all, locals, x));
      SameEntries(h, h', Rivals(all, locals, x));
    }
  }

  /** Without equally cheap transactions the entries decide: there is a miscount or there is none. */
  lemma ExactMiscount(h: seq<Tx>, all: set<Tx>, locals: set<Addr>, count: int)
    requires forall x, y :: x in all && y in all && x.sender !in locals && y.sender !in locals && x != y ==>
               Before(x, y) || Before(y, x)
    ensures MayMiscount(h, all, locals, count) <==> MustMiscount(h, all, locals, count)
  {
    forall x | x in all && x.sender !in locals ensures Cheaper(all, locals, x) == Rivals(all, locals, x) {
    }
  }

  /** What is dropped twice had cheaper entries only before it; and what has to be is. */
  lemma Miscounts(h0: seq<Tx>, rest: seq<Tx>, save: seq<Tx>, drop: seq<Tx>, gone: multiset<Tx>, all: set<Tx>,
                  locals: set<Addr>, count: nat)
    requires Sorted(h0, rest, save, drop, gone, all, locals) && |drop| <= count && (|drop| < count ==> rest == [])
    requires forall x :: x in save ==> x.sender in locals
    ensures !Single(drop) ==> MayMiscount(h0, all, locals, count)
    ensures MustMiscount(h0, all, locals, count) ==> !Single(drop)
  {
    hide MayMiscount, MustMiscount, EntriesOf, Before;
    if !Single(drop) {
      var x :| multiset(drop)[x] > 1;
      TwiceDropped(h0, rest, save, drop, gone, all, locals, count, x);
    }
    if MustMiscount(h0, all, locals, count) {
      var x := Culprit(h0, all, locals, count);
      MustDropTwice(h0, rest, save, drop, gone, all, locals, count, x);
    }
  }

  lemma Culprit(h: seq<Tx>, all: set<Tx>, locals: set<Addr>, count: int) returns (x: Tx)
    requires MustMiscount(h, all, locals, count)
    ensures Doubled(h, all, locals, x) && |EntriesOf(h, Rivals(all, locals, x))| + 2 <= count
  {
    x :| Doubled(h, all, locals, x) && |EntriesOf(h, Rivals(all, locals, x))| + 2 <= count;
  }

  lemma TwiceDropped(h0: seq<Tx>, rest: seq<Tx>, save: seq<Tx>, drop: seq<Tx>, gone: multiset<Tx>, all: set<Tx>,
                     locals: set<Addr>, count: nat, x: Tx)
    requires Sorted(h0, rest, save, drop, gone, all, locals) && |drop| <= count && multiset(drop)[x] > 1
    requires forall y :: y in save ==> y.sender in locals
    ensures MayMiscount(h0, all, locals, count)
  {
    hide EntriesOf, Before;
    assert x in drop;
    var bag := multiset(drop) - multiset{x, x};
    var s := Cheaper(all, locals, x);
    forall y | y in s ensures multiset(h0)[y] <= bag[y] {
      NotAfterItself(x);
      assert y !in rest && y !in save && y !in gone;
      assert y !in multiset(rest) && y !in multiset(save);
    }
    EntriesWithin(h0, s, bag);
    assert multiset(drop) == bag + multiset{x, x};
    assert |multiset(drop)| == |bag| + 2;
    assert Doubled(h0, all, locals, x);
  }

  lemma NotAfterItself(x: Tx)
    ensures !Before(x, x)
  {
  }

  lemma MustDropTwice(h0: seq<Tx>, rest: seq<Tx>, save: seq<Tx>, drop: seq<Tx>, gone: multiset<Tx>, all: set<Tx>,
                      locals: set<Addr>, count: nat, x: Tx)
    requires Sorted(h0, rest, save, drop, gone, all, locals) && (|drop| < count ==> rest == [])
    requires forall y :: y in save ==> y.sender in locals
    requires Doubled(h0, all, locals, x) && |EntriesOf(h0, Rivals(all, locals, x))| + 2 <= count
    ensures multiset(drop)[x] > 1
  {
    hide EntriesOf, Before;
    if multiset(drop)[x] <= 1 {
      assert x !in multiset(save) && x !in gone;
      assert multiset(rest)[x] > 0;
      assert x in rest;
      var bag := multiset(drop)[x := 0];
      var s := Rivals(all, locals, x);
      forall y | y in bag ensures y in s { assert y in drop; }
      WithinEntries(h0, s, bag);
    }
  }

  lemma StaleOff(h: seq<Tx>, items: seq<Tx>, gone: Tx, all: set<Tx>)
    requires Covers(h, all) && multiset(h) == multiset(items) + multiset{gone} && gone !in all
    ensures Covers(items, all) && |h| == |items| + 1
  {
    forall x | x in all ensures x in items {
      assert x in multiset(h);
      assert x in multiset(items);
    }
    assert |multiset(h)| == |multiset(items)| + 1;
  }

  method ListAll(all: set<Tx>) returns (r: seq<Tx>)
    ensures multiset(r) == multiset(all)
  {
    r := [];
    var rest := all;
    while rest != {}
      invariant rest <= all && multiset(r) + multiset(rest) == multiset(all)
      decreases rest
    {
      var tx :| tx in rest;
      assert multiset(rest) == multiset(rest - {tx}) + multiset{tx};
      r, rest := r + [tx], rest - {tx};
    }
  }

  lemma CoversMore(h: seq<Tx>, h': seq<Tx>, all: set<Tx>, tx: Tx)
    requires Covers(h, all) && multiset(h') == multiset(h) + multiset{tx}
    ensures Covers(h', all + {tx}) && |h'| == |h| + 1
  {
    forall x | x in all + {tx} ensures x in h' {
      assert x in multiset(h');
    }
    assert |multiset(h')| == |multiset(h)| + 1;
  }

  lemma Rebuilt(h: seq<Tx>, all: set<Tx>)
    requires multiset(h) == multiset(all)
    ensures Covers(h, all) && |h| == |all|
  {
    forall x | x in all ensures x in h { assert x in multiset(h); }
    assert |multiset(h)| == |multiset(all)|;
  }

  /** A transaction that is removed while few entries are stale, and comes back, has two entries. */
  method PutAgain(p: PricedList, tx: Tx, all: set<Tx>)
    requires p.Valid(all) && p.Accurate(all) && tx in all && 4 * (p.stales + 1) <= |p.items|
    modifies p
    ensures p.Valid(all) && p.Accurate(all)
    ensures multiset(p.items) == multiset(old(p.items)) + multiset{tx} && multiset(p.items)[tx] > 1
  {
    hide IsPriceHeap, Covers;
    Fewer(p.items, all, all - {tx});
    assert tx in p.items by { HasEntry(p.items, all, tx); }
    assert |all - {tx}| == |all| - 1;
    p.Removed(all - {tx});
    p.Put(tx, all - {tx});
    assert all - {tx} + {tx} == all;
  }

  lemma HasEntry(items: seq<Tx>, all: set<Tx>, tx: Tx)
    requires Covers(items, all) && tx in all
    ensures tx in items && multiset(items)[tx] > 0
  {
  }

  /** A heap of four transactions. */
  method FourPut(a: Tx, b: Tx, c: Tx, d: Tx) returns (p: PricedList)
    requires |{a, b, c, d}| == 4
    ensures fresh(p) && p.Valid({a, b, c, d}) && p.Accurate({a, b, c, d}) && p.stales == 0
    ensures multiset(p.items) == multiset{a, b, c, d} && |p.items| == 4
  {
    hide IsPriceHeap, Covers;
    p := new PricedList();
    var all: set<Tx> := {};
    p.Put(a, all);
    p.Put(b, all + {a});
    p.Put(c, all + {a} + {b});
    p.Put(d, all + {a} + {b} + {c});
    assert all + {a} + {b} + {c} + {d} == {a, b, c, d};
    assert |multiset(p.items)| == 4;
  }

  lemma Fewer(items: seq<Tx>, all: set<Tx>, less: set<Tx>)
    requires Covers(items, all) && less <= all
    ensures Covers(items, less)
  {
  }

  /** The counter goes wrong: the cheapest transaction has two entries, and two are discarded. */
  method DiscardMiscounts(tx: Tx, a: Tx, b: Tx, c: Tx) returns (p: PricedList, all: set<Tx>, drop: seq<Tx>)
    requires |{tx, a, b, c}| == 4 && Before(tx, a) && Before(tx, b) && Before(tx, c)
    ensures fresh(p) && drop == [tx, tx] && all == {tx, a, b, c} - {tx} && p.Valid(all) && !p.Accurate(all)
  {
    hide IsPriceHeap, Covers, Before, MustMiscount, MayMiscount, Single;
    all := {tx, a, b, c};
    p := FourPut(tx, a, b, c);
    PutAgain(p, tx, all);
    CheapestTwice(p.items, all, tx);
    drop := p.Discard(2, {}, all);
    TwoOf(drop);
    ghost var d := drop[0];
    assert d in drop && d != tx ==> Before(tx, d);
    assert |all - {tx}| == |all| - 1;
    all := all - {tx};
  }

  lemma CheapestTwice(h: seq<Tx>, all: set<Tx>, tx: Tx)
    requires tx in all && multiset(h)[tx] > 1 && forall x :: x in all && x != tx ==> Before(tx, x)
    ensures MustMiscount(h, all, {}, 2)
  {
    assert Doubled(h, all, {}, tx);
    assert Rivals(all, {}, tx) == {};
    EntriesWithin(h, {}, multiset{});
  }

  lemma TwoOf(drop: seq<Tx>)
    requires |drop| <= 2 && !Single(drop)
    ensures |drop| == 2 && drop[0] == drop[1] && SetOf(drop) == {drop[0]}
  {
    assert drop != [] ==> drop == [drop[0]] + drop[1..];
    assert |drop| == 2 ==> drop[1..] == [drop[1]];
  }
}
