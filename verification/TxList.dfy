/**
 The transactions of one account with the caps that bound their cost and gas. In a strict list,
 whatever follows a removed transaction leaves as well.
 */
module TxList {
  import opened Common
  import opened TxSortedMap

  // ---------------------------------------------------------------- what operations compute

  /** A transaction the account can pay for, within the gas limit of a block. */
  predicate Affordable(tx: Tx, cost: nat, gas: nat) {
    tx.Cost() <= cost && tx.gas <= gas
  }

  function Paid(m: Slots, cost: nat, gas: nat): Slots {
    map n | n in m && Affordable(m[n], cost, gas) :: m[n]
  }

  function Unpaid(m: Slots, cost: nat, gas: nat): Slots {
    map n | n in m && !Affordable(m[n], cost, gas) :: m[n]
  }

  /** The caps bound every member. */
  ghost predicate Bounded(m: Slots, costcap: nat, gascap: nat) {
    forall n :: n in m ==> Affordable(m[n], costcap, gascap)
  }

  /** A replacement must be dearer, by a percentage. */
  predicate Outbids(prior: Tx, tx: Tx, bump: nat) {
    prior.price < tx.price && prior.price * (100 + bump) / 100 <= tx.price
  }

  /** What a list keeps of what is paid for: in strict mode nothing above the first gap. */
  ghost function Kept(m: Slots, strict: bool, cost: nat, gas: nat): Slots {
    if strict && Unpaid(m, cost, gas) != map[] then Below(m, LowestKey(Unpaid(m, cost, gas)))
    else Paid(m, cost, gas)
  }

  /** What a strict list gives up although it is paid for. */
  ghost function Stranded(m: Slots, strict: bool, cost: nat, gas: nat): Slots {
    if strict && Unpaid(m, cost, gas) != map[] then From(Paid(m, cost, gas), LowestKey(Unpaid(m, cost, gas)))
    else map[]
  }

  /** When the caps are within the limits, there is nothing to filter. */
  lemma CapsSuffice(m: Slots, costcap: nat, gascap: nat, cost: nat, gas: nat)
    requires Bounded(m, costcap, gascap) && costcap <= cost && gascap <= gas
    ensures Unpaid(m, cost, gas) == map[] && Paid(m, cost, gas) == m
  {
  }

  /** Filtering splits the contents into what is kept, what is not paid for and what is stranded. */
  lemma FilterSplits(m: Slots, strict: bool, cost: nat, gas: nat, n: nat)
    ensures n in m <==> n in Kept(m, strict, cost, gas) || n in Unpaid(m, cost, gas)
                        || n in Stranded(m, strict, cost, gas)
    ensures !(n in Kept(m, strict, cost, gas) && n in Unpaid(m, cost, gas))
    ensures !(n in Kept(m, strict, cost, gas) && n in Stranded(m, strict, cost, gas))
    ensures !(n in Unpaid(m, cost, gas) && n in Stranded(m, strict, cost, gas))
  {
  }

  // ---------------------------------------------------------------- the list

  class TxList {
    const strict: bool
    const txs: SortedMap
    var costcap: nat
    var gascap: nat

    ghost predicate Valid()
      reads this, txs
    {
      txs.Valid() && Bounded(txs.items, costcap, gascap)
    }

    constructor (strict: bool)
      ensures Valid() && fresh(txs) && this.strict == strict && txs.items == map[]
    {
      this.strict := strict;
      txs := new SortedMap();
      costcap, gascap := 0, 0;
    }

    predicate Overlaps(tx: Tx)
      reads this, txs
    {
      txs.Get(tx.nonce).Some?
    }

    /** `Add`: accepted when the nonce is free or the old transaction is outbid. */
    method Add(tx: Tx, bump: nat) returns (inserted: bool, prior: Option<Tx>)
      requires Valid()
      modifies this, txs
      ensures Valid()
      ensures inserted <==> (tx.nonce in old(txs.items) ==> Outbids(old(txs.items)[tx.nonce], tx, bump))
      ensures txs.items == if inserted then old(txs.items)[tx.nonce := tx] else old(txs.items)
      ensures prior == if inserted && tx.nonce in old(txs.items) then Some(old(txs.items)[tx.nonce]) else None
    {
      prior := txs.Get(tx.nonce);
      if prior.Some? {
        var threshold := prior.value.price * (100 + bump) / 100;
        if prior.value.price >= tx.price || threshold > tx.price {
          return false, None;
        }
      }
      txs.Put(tx);
      if costcap < tx.Cost() {
        costcap := tx.Cost();
      }
      if gascap < tx.gas {
        gascap := tx.gas;
      }
      return true, prior;
    }

    /** `Forward` */
    method Forward(threshold: nat) returns (removed: seq<Tx>)
      requires Valid()
      modifies txs
      ensures Valid() && txs.items == From(old(txs.items), threshold)
      ensures removed == Order(Below(old(txs.items), threshold))
    {
      hide Order;
      removed := txs.Forward(threshold);
    }

    /** `Filter`: what is not paid for leaves, whether or not the caps allow the short way. */
    method Filter(costLimit: nat, gasLimit: nat) returns (removed: seq<Tx>, invalids: seq<Tx>)
      requires Valid()
      modifies this, txs
      ensures Valid() && txs.items == Kept(old(txs.items), strict, costLimit, gasLimit)
      ensures multiset(removed) == multiset(Order(Unpaid(old(txs.items), costLimit, gasLimit)))
      ensures multiset(invalids) == multiset(Order(Stranded(old(txs.items), strict, costLimit, gasLimit)))
    {
      hide Order, SortedMap.Valid, Kept, Stranded, Paid, Unpaid, Bounded, Keyed;
      ghost var m := txs.items;
      KeyedItems(txs);
      removed, invalids := [], [];
      if costcap <= costLimit && gascap <= gasLimit {
        CapsSuffice(m, costcap, gascap, costLimit, gasLimit);
        Unfiltered(m, strict, costLimit, gasLimit);
        return;
      }
      costcap, gascap := costLimit, gasLimit;
      var costly := (tx: Tx) => tx.Cost() > costLimit || tx.gas > gasLimit;
      PickedUnpaid(m, costly, costLimit, gasLimit);
      removed := txs.Filter(costly);
      if strict && |removed| > 0 {
        var lowest := LowestNonce(removed);
        LowestUnpaid(m, costLimit, gasLimit, removed, lowest);
        var later := (tx: Tx) => tx.nonce > lowest;
        CutPaid(m, later, costLimit, gasLimit, lowest);
        invalids := txs.Filter(later);
      } else {
        NoneUnpaid(m, costLimit, gasLimit, removed);
        Unfiltered(m, strict, costLimit, gasLimit);
      }
      KeptIsPaid(m, strict, costLimit, gasLimit);
    }

    /** `Cap` */
    method Cap(threshold: nat) returns (drops: seq<Tx>, ghost bound: nat)
      requires Valid()
      modifies txs
      ensures Valid() && txs.items == Below(old(txs.items), bound)
      ensures |old(txs.items)| <= threshold ==> txs.items == old(txs.items) && drops == []
      ensures |old(txs.items)| > threshold ==> |txs.items| == threshold
      ensures Mirror(drops, Order(From(old(txs.items), bound)))
    {
      hide Order, SortedMap.Valid;
      drops, bound := txs.Cap(threshold);
    }

    /** `Remove`: in strict mode everything above leaves as well. */
    method Remove(tx: Tx) returns (found: bool, invalids: seq<Tx>)
      requires Valid()
      modifies txs
      ensures Valid() && found == (tx.nonce in old(txs.items))
      ensures !found ==> txs.items == old(txs.items) && invalids == []
      ensures found && !strict ==> txs.items == old(txs.items) - {tx.nonce} && invalids == []
      ensures found && strict ==> txs.items == Below(old(txs.items), tx.nonce)
      ensures found && strict ==> multiset(invalids) == multiset(Order(From(old(txs.items), tx.nonce + 1)))
    {
      hide Order, SortedMap.Valid;
      ghost var m := txs.items;
      KeyedItems(txs);
      var nonce := tx.nonce;
      found := txs.Remove(nonce);
      if !found {
        assert m - {nonce} == m;
        return false, [];
      }
      if strict {
        var later := (tx: Tx) => tx.nonce > nonce;
        invalids := txs.Filter(later);
        CutAfter(m, later, nonce);
      } else {
        invalids := [];
      }
    }

    /** `Ready` */
    method Ready(start: nat) returns (ready: seq<Tx>)
      requires Valid()
      modifies txs
      ensures Valid()
      ensures var m, n := old(txs.items), if old(txs.items) == map[] then start + 1 else LowestKey(old(txs.items));
              if n > start then ready == [] && txs.items == m
              else ready == Order(Below(m, RunEnd(m, n))) && txs.items == From(m, RunEnd(m, n))
    {
      hide Order, SortedMap.Valid;
      ready := txs.Ready(start);
    }
  }

  /** The search for the lowest nonce that was filtered out. */
  method LowestNonce(txs: seq<Tx>) returns (lowest: nat)
    requires txs != []
    ensures (exists tx :: tx in txs && tx.nonce == lowest) && forall tx :: tx in txs ==> lowest <= tx.nonce
  {
    lowest := txs[0].nonce;
    var i := 1;
    while i < |txs|
      invariant 1 <= i <= |txs|
      invariant exists j :: 0 <= j < i && txs[j].nonce == lowest
      invariant forall j :: 0 <= j < i ==> lowest <= txs[j].nonce
    {
      if lowest > txs[i].nonce {
        lowest := txs[i].nonce;
      }
      i := i + 1;
    }
  }

  lemma KeyedItems(t: SortedMap)
    requires t.Valid()
    ensures Keyed(t.items)
  {
  }

  lemma NoneUnpaid(m: Slots, cost: nat, gas: nat, removed: seq<Tx>)
    requires multiset(removed) == multiset(Order(Unpaid(m, cost, gas)))
    ensures removed == [] ==> Unpaid(m, cost, gas) == map[]
  {
    hide Order;
    OrderSize(Unpaid(m, cost, gas));
    assert |multiset(Order(Unpaid(m, cost, gas)))| == |multiset(removed)|;
  }

  lemma Unfiltered(m: Slots, strict: bool, cost: nat, gas: nat)
    requires !strict || Unpaid(m, cost, gas) == map[]
    ensures Kept(m, strict, cost, gas) == Paid(m, cost, gas)
    ensures Order(Stranded(m, strict, cost, gas)) == [] && Order(map[]) == []
  {
  }

  lemma KeptIsPaid(m: Slots, strict: bool, cost: nat, gas: nat)
    ensures Bounded(Kept(m, strict, cost, gas), cost, gas)
  {
    if strict && Unpaid(m, cost, gas) != map[] {
      var b := LowestKey(Unpaid(m, cost, gas));
      forall n | n in Below(m, b) ensures Affordable(m[n], cost, gas) {
        assert n !in Unpaid(m, cost, gas);
      }
    }
  }

  lemma PickedUnpaid(m: Slots, pick: Tx -> bool, cost: nat, gas: nat)
    requires forall tx :: pick(tx) <==> !Affordable(tx, cost, gas)
    ensures Picked(m, pick) == Unpaid(m, cost, gas) && Unpicked(m, pick) == Paid(m, cost, gas)
  {
  }

  lemma LowestUnpaid(m: Slots, cost: nat, gas: nat, removed: seq<Tx>, lowest: nat)
    requires Keyed(m) && multiset(removed) == multiset(Order(Unpaid(m, cost, gas)))
    requires (exists tx :: tx in removed && tx.nonce == lowest) && forall tx :: tx in removed ==> lowest <= tx.nonce
    ensures lowest in Unpaid(m, cost, gas) && forall n :: n in Unpaid(m, cost, gas) ==> lowest <= n
  {
    hide Order;
    var u := Unpaid(m, cost, gas);
    forall tx ensures tx in removed <==> tx.nonce in u && u[tx.nonce] == tx {
      OrderHas(u, tx);
      assert tx in multiset(removed) <==> tx in multiset(Order(u));
    }
    forall n | n in u ensures lowest <= n {
      assert u[n] in removed;
    }
  }

  lemma CutPaid(m: Slots, later: Tx -> bool, cost: nat, gas: nat, lowest: nat)
    requires Keyed(m) && lowest in Unpaid(m, cost, gas) && forall n :: n in Unpaid(m, cost, gas) ==> lowest <= n
    requires forall tx :: later(tx) <==> tx.nonce > lowest
    ensures Unpicked(Paid(m, cost, gas), later) == Kept(m, true, cost, gas)
    ensures Picked(Paid(m, cost, gas), later) == Stranded(m, true, cost, gas)
  {
    assert LowestKey(Unpaid(m, cost, gas)) == lowest;
    forall n | n in m && n < lowest ensures n in Paid(m, cost, gas) {
      assert n !in Unpaid(m, cost, gas);
    }
    assert lowest !in Paid(m, cost, gas);
  }

  lemma CutAfter(m: Slots, later: Tx -> bool, n: nat)
    requires Keyed(m) && forall tx :: later(tx) <==> tx.nonce > n
    ensures Unpicked(m - {n}, later) == Below(m, n) && Picked(m - {n}, later) == From(m, n + 1)
  {
  }
}
