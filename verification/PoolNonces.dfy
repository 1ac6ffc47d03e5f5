/**
 How the steps of the pool move an account's pending nonces and the nonce that is expected next:
 what has no gap keeps none, even where pending transactions are older than the state, as they are
 while transactions of given-up blocks come back.
 */
module PoolNonces {
  import opened Common
  import opened TxSortedMap
  import opened TxList
  import opened PoolPlaces

  /** The nonce that is tracked for an account, if any. */
  function Track(virtual: map<Addr, nat>, a: Addr): Option<nat> {
    if a in virtual then Some(virtual[a]) else None
  }

  function Next(n: nat, v: Option<nat>): nat {
    if v.Some? then v.value else n
  }

  /** Exactly the nonces from the state's to before the one expected next. */
  ghost predicate Whole(m: Slots, n: nat, v: Option<nat>) {
    n <= Next(n, v) && forall k: nat :: k in m <==> n <= k < Next(n, v)
  }

  /** From the state's nonce on there is no gap, nothing is at or beyond a tracked nonce, and what
      lies between the two is pending and can be paid for. Older nonces do not matter. */
  ghost predicate Solid(m: Slots, n: nat, v: Option<nat>, cost: nat, gas: nat) {
    && (forall k, j: nat :: k in m && n <= j < k ==> j in m)
    && (v.Some? ==> forall k :: k in m ==> k < v.value)
    && (forall k: nat :: n <= k < Next(n, v) ==> k in m && Affordable(m[k], cost, gas))
  }

  /** A nonce is expected that the state has passed. */
  predicate Sunk(n: nat, v: Option<nat>) {
    v.Some? && v.value < n
  }

  /** The nonces that the state has passed are the same, or a passed one is expected. */
  ghost predicate SinksWith(m: Slots, v: Option<nat>, m': Slots, v': Option<nat>, n: nat) {
    && Part(Below(m', n), Below(m, n))
    && (Sunk(n, v) ==> Sunk(n, v'))
    && (!Sunk(n, v) ==> (Sunk(n, v') <==> Below(m', n) != Below(m, n)))
  }

  ghost predicate Step(m: Slots, v: Option<nat>, m': Slots, v': Option<nat>, n: nat, cost: nat, gas: nat) {
    && (Whole(m, n, v) ==> Whole(m', n, v'))
    && (Solid(m, n, v, cost, gas) ==> Solid(m', n, v', cost, gas) && SinksWith(m, v, m', v', n))
  }

  lemma SameStep(m: Slots, v: Option<nat>, n: nat, cost: nat, gas: nat)
    ensures Step(m, v, m, v, n, cost, gas)
  {
  }

  lemma BothSteps(m0: Slots, v0: Option<nat>, m1: Slots, v1: Option<nat>, m2: Slots, v2: Option<nat>, n: nat, cost: nat,
                  gas: nat)
    requires Step(m0, v0, m1, v1, n, cost, gas) && Step(m1, v1, m2, v2, n, cost, gas)
    ensures Step(m0, v0, m2, v2, n, cost, gas)
  {
    hide Whole, Solid, Below;
    if Solid(m0, n, v0, cost, gas) {
      var b0, b1, b2 := Below(m0, n), Below(m1, n), Below(m2, n);
      if b2 == b0 { SamePart(b0, b1); }
    }
  }

  lemma SamePart(a: Slots, b: Slots)
    requires Part(a, b) && Part(b, a)
    ensures a == b
  {
  }

  /** A list is cut at a nonce, which is expected again. */
  lemma CutStep(m: Slots, v: Option<nat>, c: nat, n: nat, cost: nat, gas: nat)
    requires c in m
    ensures Step(m, v, Below(m, c), if Next(n, v) > c then Some(c) else v, n, cost, gas)
  {
    var m' := Below(m, c);
    if c >= n {
      assert Below(m', n) == Below(m, n);
    } else {
      assert c in Below(m, n) && c !in Below(m', n);
    }
  }

  /** What is ready of a queue without stale or unpaid transactions is appended. */
  lemma AppendStep(m: Slots, v: Option<nat>, q: Slots, n: nat, cost: nat, gas: nat, v': Option<nat>)
    requires forall k :: k in q ==> n <= k && k !in m && Affordable(q[k], cost, gas)
    requires v' == if q != map[] && LowestKey(q) <= Next(n, v) then Some(ReadyEnd(q, Next(n, v))) else v
    ensures Step(m, v, m + Below(q, ReadyEnd(q, Next(n, v))), v', n, cost, gas)
    ensures Next(n, v') !in From(q, ReadyEnd(q, Next(n, v)))
  {
    hide RunEnd, Solid, Whole;
    var e := ReadyEnd(q, Next(n, v));
    var m' := m + Below(q, e);
    if q == map[] || LowestKey(q) > Next(n, v) {
      assert Below(q, 0) == map[];
      assert m' == m;
    } else {
      var low := LowestKey(q);
      assert low in q && e == RunEnd(q, low);
      assert Below(m', n) == Below(m, n);
      if Solid(m, n, v, cost, gas) { Extends(m, v, q, n, cost, gas, low, e); }
      if Whole(m, n, v) { WholeExtends(m, v, q, n, low, e); }
    }
  }

  lemma Extends(m: Slots, v: Option<nat>, q: Slots, n: nat, cost: nat, gas: nat, low: nat, e: nat)
    requires Solid(m, n, v, cost, gas) && low in q && low <= Next(n, v) && low < e
    requires forall k :: k in q ==> low <= k && n <= k && k !in m && Affordable(q[k], cost, gas)
    requires forall k :: low <= k < e ==> k in q
    ensures Solid(m + Below(q, e), n, Some(e), cost, gas)
  {
    var m' := m + Below(q, e);
    assert low == Next(n, v);
    assert forall k :: k in m && v.None? && low < k ==> low in m;
    assert forall k :: k in m ==> k < low;
    forall k: nat | n <= k < e ensures k in m' && Affordable(m'[k], cost, gas) {
    }
  }

  lemma WholeExtends(m: Slots, v: Option<nat>, q: Slots, n: nat, low: nat, e: nat)
    requires Whole(m, n, v) && low in q && low <= Next(n, v) && low < e
    requires forall k :: k in q ==> low <= k && n <= k && k !in m
    requires forall k :: low <= k < e ==> k in q
    ensures Whole(m + Below(q, e), n, Some(e))
  {
    assert low == Next(n, v);
  }

  /** A transaction takes the place of another with its nonce, which the state has not passed. */
  lemma SwapStep(m: Slots, v: Option<nat>, tx: Tx, n: nat, cost: nat, gas: nat)
    requires tx.nonce in m && n <= tx.nonce && Affordable(tx, cost, gas)
    ensures Step(m, v, m[tx.nonce := tx], v, n, cost, gas)
  {
    assert Below(m[tx.nonce := tx], n) == Below(m, n);
  }

  // ---------------------------------------------------------------- all accounts

  ghost predicate StepAt(p: Lists, v: map<Addr, nat>, p': Lists, v': map<Addr, nat>, nonces: Addr -> nat,
                         balances: Addr -> nat, gas: nat, a: Addr)
  {
    Step(Of(p, a), Track(v, a), Of(p', a), Track(v', a), nonces(a), balances(a), gas)
  }

  ghost predicate Steps(p: Lists, v: map<Addr, nat>, p': Lists, v': map<Addr, nat>, nonces: Addr -> nat,
                        balances: Addr -> nat, gas: nat) {
    forall a {:trigger StepAt(p, v, p', v', nonces, balances, gas, a)} :: StepAt(p, v, p', v', nonces, balances, gas, a)
  }

  lemma NoSteps(p: Lists, v: map<Addr, nat>, nonces: Addr -> nat, balances: Addr -> nat, gas: nat)
    ensures Steps(p, v, p, v, nonces, balances, gas)
  {
    hide Step;
    forall a ensures StepAt(p, v, p, v, nonces, balances, gas, a) {
      SameStep(Of(p, a), Track(v, a), nonces(a), balances(a), gas);
    }
  }

  lemma MoreSteps(p0: Lists, v0: map<Addr, nat>, p1: Lists, v1: map<Addr, nat>, p2: Lists, v2: map<Addr, nat>,
                  nonces: Addr -> nat, balances: Addr -> nat, gas: nat)
    requires Steps(p0, v0, p1, v1, nonces, balances, gas) && Steps(p1, v1, p2, v2, nonces, balances, gas)
    ensures Steps(p0, v0, p2, v2, nonces, balances, gas)
  {
    hide Step;
    forall a ensures StepAt(p0, v0, p2, v2, nonces, balances, gas, a) {
      assert StepAt(p0, v0, p1, v1, nonces, balances, gas, a) && StepAt(p1, v1, p2, v2, nonces, balances, gas, a);
      BothSteps(Of(p0, a), Track(v0, a), Of(p1, a), Track(v1, a), Of(p2, a), Track(v2, a), nonces(a), balances(a), gas);
    }
  }

  /** One account takes a step. */
  lemma OneStep(p: Lists, v: map<Addr, nat>, p': Lists, v': map<Addr, nat>, nonces: Addr -> nat, balances: Addr -> nat,
                gas: nat, a: Addr)
    requires Elsewhere(p, p', a) && v' - {a} == v - {a} && StepAt(p, v, p', v', nonces, balances, gas, a)
    ensures Steps(p, v, p', v', nonces, balances, gas)
  {
    hide Step;
    forall x ensures StepAt(p, v, p', v', nonces, balances, gas, x) {
      if x != a {
        assert Of(p', x) == Of(p, x);
        assert x in v <==> x in v - {a};
        assert x in v' <==> x in v' - {a};
        assert x in v ==> (v - {a})[x] == (v' - {a})[x];
        SameStep(Of(p, x), Track(v, x), nonces(x), balances(x), gas);
      }
    }
  }

  lemma WholeIsUnbroken(p: Lists, nonces: Addr -> nat, v: map<Addr, nat>, a: Addr)
    ensures Whole(Of(p, a), nonces(a), Track(v, a)) <==> Unbroken(p, nonces, v, a)
    ensures Next(nonces(a), Track(v, a)) == Expected(nonces, v, a)
  {
    assert forall k: nat :: k in Of(p, a) <==> Has(p, a, k);
  }

  lemma StepsContiguous(p: Lists, v: map<Addr, nat>, p': Lists, v': map<Addr, nat>, nonces: Addr -> nat,
                        balances: Addr -> nat, gas: nat)
    requires Steps(p, v, p', v', nonces, balances, gas)
    ensures Contiguous(p, nonces, v) ==> Contiguous(p', nonces, v')
    ensures forall a :: Unbroken(p, nonces, v, a) ==> Unbroken(p', nonces, v', a)
  {
    hide Solid, Whole, Unbroken;
    forall a ensures Unbroken(p, nonces, v, a) ==> Unbroken(p', nonces, v', a) {
      assert StepAt(p, v, p', v', nonces, balances, gas, a);
      WholeIsUnbroken(p, nonces, v, a);
      WholeIsUnbroken(p', nonces, v', a);
    }
  }

  /** A pending list is cut at a nonce, which is expected again. */
  lemma CutSteps(p: Lists, v: map<Addr, nat>, nonces: Addr -> nat, balances: Addr -> nat, gas: nat, a: Addr, c: nat)
    requires Has(p, a, c)
    ensures Steps(p, v, Set(p, a, Below(p[a], c)), if Expected(nonces, v, a) > c then v[a := c]
                  else v, nonces, balances, gas)
  {
    hide Step, Below;
    var p', v' := Set(p, a, Below(p[a], c)), if Expected(nonces, v, a) > c then v[a := c] else v;
    ElsewhereSet(p, a, Below(p[a], c));
    CutStep(p[a], Track(v, a), c, nonces(a), balances(a), gas);
    assert v' - {a} == v - {a};
    assert StepAt(p, v, p', v', nonces, balances, gas, a);
    OneStep(p, v, p', v', nonces, balances, gas, a);
  }

  lemma SwapSteps(p: Lists, v: map<Addr, nat>, nonces: Addr -> nat, balances: Addr -> nat, gas: nat, tx: Tx)
    requires Has(p, tx.sender, tx.nonce) && nonces(tx.sender) <= tx.nonce && Affordable(tx, balances(tx.sender), gas)
    ensures Steps(p, v, Put(p, tx), v, nonces, balances, gas)
  {
    hide Step;
    SwapStep(p[tx.sender], Track(v, tx.sender), tx, nonces(tx.sender), balances(tx.sender), gas);
    ElsewhereItself(p, tx.sender);
    ElsewherePut(p, p, tx);
    assert StepAt(p, v, Put(p, tx), v, nonces, balances, gas, tx.sender);
    OneStep(p, v, Put(p, tx), v, nonces, balances, gas, tx.sender);
  }

  lemma ElsewhereItself(l: Lists, a: Addr)
    ensures Elsewhere(l, l, a)
  {
  }

  // ---------------------------------------------------------------- tracked nonces

  /** The pool's copy of a state, in which it writes the nonces that it tracks. */
  datatype Managed = Managed(state: Addr -> nat, written: map<Addr, nat>, tracked: map<Addr, nat>) {
    function Nonce(a: Addr): nat {
      if a in written then written[a] else state(a)
    }

    function SetNonce(a: Addr, n: nat): Managed {
      Managed(state, written[a := n], tracked[a := n])
    }

    /** A tracked nonce is lifted to the copy's when that is higher. */
    function GetNonce(a: Addr): nat {
      if a in tracked && tracked[a] >= Nonce(a) then tracked[a] else Nonce(a)
    }
  }

  ghost function SetAll(nonces: Addr -> nat, sets: seq<(Addr, nat)>): Managed {
    if sets == [] then Managed(nonces, map[], map[])
    else SetAll(nonces, sets[..|sets| - 1]).SetNonce(sets[|sets| - 1].0, sets[|sets| - 1].1)
  }

  /** The lift never shows, since the copy's nonce is written too: the tracked nonce counts, where
      there is one, and the nonce of the original state elsewhere. */
  lemma {:induction false} NeverLifted(nonces: Addr -> nat, sets: seq<(Addr, nat)>, a: Addr)
    ensures var m := SetAll(nonces, sets); GetNonceIs(m, nonces, a)
  {
    if sets != [] {
      NeverLifted(nonces, sets[..|sets| - 1], a);
    }
  }

  ghost predicate GetNonceIs(m: Managed, nonces: Addr -> nat, a: Addr) {
    m.GetNonce(a) == Expected(nonces, m.tracked, a) && m.state == nonces && Track(m.written, a) == Track(m.tracked, a)
  }
}
