/**
 Gas accounting: buying gas for a message, paying for its data, running it, refunding what is left
 and paying the miner. Over any sequence of messages no balance is created or lost, and the gas
 pool of a block falls by exactly the gas that was used.
 */
module Gas {
  import opened Common

  const MAX_UINT64: nat := 0xFFFF_FFFF_FFFF_FFFF
  const TX_GAS: nat := 21000
  const TX_GAS_CONTRACT_CREATION: nat := 53000
  const TX_DATA_ZERO_GAS: nat := 4
  const TX_DATA_NON_ZERO_GAS: nat := 68

  type Addr = nat
  type Balances = map<Addr, nat>

  datatype TxError =
    | NonceTooHigh | NonceTooLow | InsufficientBalanceForGas | GasLimitReached | OutOfGas | InsufficientBalance

  datatype Message = Message(from: Addr, to: Option<Addr>, gas: nat, gasPrice: nat, value: nat, nonce: nat,
                             checkNonce: bool, data: seq<bv8>)

  // ---------------------------------------------------------------- intrinsic gas

  ghost function NonZeros(data: seq<bv8>): nat {
    if data == [] then 0 else NonZeros(data[..|data| - 1]) + (if data[|data| - 1] != 0 then 1 else 0)
  }

  lemma {:induction false} NonZerosBound(data: seq<bv8>)
    ensures NonZeros(data) <= |data|
  {
    if data != [] { NonZerosBound(data[..|data| - 1]); }
  }

  /** What a message costs before it runs, as an exact integer. */
  ghost function Intrinsic(data: seq<bv8>, creation: bool, homestead: bool): nat {
    NonZerosBound(data);
    (if creation && homestead then TX_GAS_CONTRACT_CREATION else TX_GAS)
    + NonZeros(data) * TX_DATA_NON_ZERO_GAS + (|data| - NonZeros(data)) * TX_DATA_ZERO_GAS
  }

  /** `IntrinsicGas`: the exact cost, or an error if and only if 64 bits cannot hold it. */
  method IntrinsicGas(data: seq<bv8>, creation: bool, homestead: bool) returns (r: Option<nat>)
    ensures r == if Intrinsic(data, creation, homestead) <= MAX_UINT64 then Some(Intrinsic(data, creation, homestead))
            else None
  {
    NonZerosBound(data);
    var gas := if creation && homestead then TX_GAS_CONTRACT_CREATION else TX_GAS;
    if |data| > 0 {
      var nz := 0;
      for i := 0 to |data|
        invariant nz == NonZeros(data[..i])
      {
        assert data[..i + 1][..i] == data[..i];
        if data[i] != 0 {
          nz := nz + 1;
        }
      }
      assert data[..|data|] == data;
      if (MAX_UINT64 - gas) / TX_DATA_NON_ZERO_GAS < nz {
        return None;
      }
      gas := gas + nz * TX_DATA_NON_ZERO_GAS;
      var z := |data| - nz;
      if (MAX_UINT64 - gas) / TX_DATA_ZERO_GAS < z {
        return None;
      }
      gas := gas + z * TX_DATA_ZERO_GAS;
    }
    return Some(gas);
  }

  // ---------------------------------------------------------------- balances

  function Balance(b: Balances, a: Addr): nat {
    if a in b then b[a] else 0
  }

  function Credit(b: Balances, a: Addr, x: nat): Balances {
    b[a := Balance(b, a) + x]
  }

  function Debit(b: Balances, a: Addr, x: nat): Balances
    requires x <= Balance(b, a)
  {
    b[a := Balance(b, a) - x]
  }

  /** The sum of all balances. */
  ghost function Total(b: Balances): nat
    decreases |b|
  {
    if b == map[] then 0
    else
      var a :| a in b;
      assert b.Keys == (b - {a}).Keys + {a};
      b[a] + Total(b - {a})
  }

  lemma TotalPick(b: Balances) returns (a: Addr)
    requires b != map[]
    ensures a in b && Total(b) == b[a] + Total(b - {a}) && |b - {a}| < |b|
  {
    a :| a in b && Total(b) == b[a] + Total(b - {a});
    assert b.Keys == (b - {a}).Keys + {a};
  }

  lemma {:induction false} TotalSplit(b: Balances, a: Addr)
    requires a in b
    ensures Total(b) == b[a] + Total(b - {a})
    decreases |b|
  {
    hide Total;
    var x := TotalPick(b);
    if x != a {
      TotalSplit(b - {x}, a);
      assert b.Keys == (b - {a}).Keys + {a};
      TotalSplit(b - {a}, x);
      assert b - {x} - {a} == b - {a} - {x};
    }
  }

  lemma TotalUpdate(b: Balances, a: Addr, x: nat)
    ensures Total(b[a := x]) == Total(b) - Balance(b, a) + x
  {
    hide Total;
    TotalSplit(b[a := x], a);
    assert b[a := x] - {a} == b - {a};
    if a in b {
      TotalSplit(b, a);
    } else {
      assert b - {a} == b;
    }
  }

  // ---------------------------------------------------------------- what runs the message

  datatype World = World(balances: Balances, nonces: map<Addr, nat>)

  /** What running a message gives: the world after it, the gas left, the refund counter and whether it failed. */
  datatype Outcome = Outcome(world: World, gas: nat, refund: nat, failed: bool, insufficient: bool)

  type Machine = (World, Message, nat) -> Outcome

  /** A machine gives no gas back that it did not get. */
  ghost predicate Frugal(evm: Machine) {
    forall w, m, g {:trigger evm(w, m, g)} :: evm(w, m, g).gas <= g
  }

  /** By how much a message changes the sum of all balances while it runs. It is negative when a
      contract destroys itself in its own favour. */
  ghost function Drift(evm: Machine, w: World, m: Message, g: nat): int {
    Total(evm(w, m, g).world.balances) - Total(w.balances)
  }

  function NonceOf(w: World, a: Addr): nat {
    if a in w.nonces then w.nonces[a] else 0
  }

  /** What gas costs. */
  function Fee(gas: nat, price: nat): nat {
    gas * price
  }

  /** Why a message may not even start. */
  ghost function Objection(w: World, pool: nat, m: Message): Option<TxError> {
    if m.checkNonce && NonceOf(w, m.from) < m.nonce then Some(NonceTooHigh)
    else if m.checkNonce && NonceOf(w, m.from) > m.nonce then Some(NonceTooLow)
    else if Balance(w.balances, m.from) < Fee(m.gas, m.gasPrice) then Some(InsufficientBalanceForGas)
    else if pool < m.gas then Some(GasLimitReached)
    else None
  }

  /** The world after the sender has paid for the gas of a message. */
  ghost function Paid(w: World, m: Message): World
    requires Fee(m.gas, m.gasPrice) <= Balance(w.balances, m.from)
  {
    w.(balances := Debit(w.balances, m.from, Fee(m.gas, m.gasPrice)))
  }

  /** The world in which a message runs; a call has used up a nonce. */
  ghost function Entered(w: World, m: Message): World
    requires Fee(m.gas, m.gasPrice) <= Balance(w.balances, m.from)
  {
    if m.to.None? then Paid(w, m) else Paid(w, m).(nonces := w.nonces[m.from := NonceOf(w, m.from) + 1])
  }

  /** The gas that is charged: what was consumed, less the refund, which is at most half of it. */
  ghost function Charged(consumed: nat, refundable: nat): nat {
    consumed - (if refundable < consumed / 2 then refundable else consumed / 2)
  }

  /** The sender gets the price of the gas that is left, the miner that of the gas that was used. */
  ghost function Settled(w: World, m: Message, coinbase: Addr, used: nat): World
    requires used <= m.gas
  {
    w.(balances := Credit(Credit(w.balances, m.from, Fee(m.gas - used, m.gasPrice)), coinbase, Fee(used, m.gasPrice)))
  }

  datatype Result = Failed(err: TxError) | Used(gas: nat, failed: bool)

  /** What becomes of the world and of the gas pool of the block, and the result. */
  datatype After = After(world: World, pool: nat, result: Result)

  /** What a message does, from the first check to the miner's fee. */
  ghost function Applied(w: World, pool: nat, m: Message, evm: Machine, coinbase: Addr, homestead: bool): After
    requires Frugal(evm)
  {
    if Objection(w, pool, m).Some? then After(w, pool, Failed(Objection(w, pool, m).value))
    else
      var cost := Intrinsic(m.data, m.to.None?, homestead);
      if cost > m.gas then After(Paid(w, m), pool - m.gas, Failed(OutOfGas))
      else
        var out := evm(Entered(w, m), m, m.gas - cost);
        if out.failed && out.insufficient then After(out.world, pool - m.gas, Failed(InsufficientBalance))
        else
          var used := Charged(m.gas - out.gas, out.refund);
          After(Settled(out.world, m, coinbase, used), pool - used, Used(used, out.failed))
  }

  /** How the sum of all balances changes: a message that is not refused changes it by what the
      machine does and nothing else, and costs at least half of its intrinsic gas. One that is
      refused by the first checks changes nothing; one that is refused later has paid for all its
      gas, and nobody has got the price. */
  lemma Conserved(w: World, pool: nat, m: Message, evm: Machine, coinbase: Addr, homestead: bool)
    requires Frugal(evm)
    ensures var a := Applied(w, pool, m, evm, coinbase, homestead);
            var cost := Intrinsic(m.data, m.to.None?, homestead);
            var ok := Objection(w, pool, m).None? && cost <= m.gas;
            var drift := if ok then Drift(evm, Entered(w, m), m, m.gas - cost) else 0;
            match a.result
            case Used(used, _) =>
              && ok && used <= m.gas && cost <= 2 * used && a.pool == pool - used
              && Total(a.world.balances) == Total(w.balances) + drift
            case Failed(err) =>
              if Objection(w, pool, m).Some? then a.world == w && a.pool == pool
              else a.pool == pool - m.gas && Total(a.world.balances) ==
                     Total(w.balances) - Fee(m.gas, m.gasPrice) + drift
  {
    hide Total, Intrinsic, Fee, Charged, Settled, Paid, Balance, Credit, Debit;
    var cost := Intrinsic(m.data, m.to.None?, homestead);
    if Objection(w, pool, m).None? {
      PaidTotal(w, m);
      if cost <= m.gas {
        var out := evm(Entered(w, m), m, m.gas - cost);
        var used := Charged(m.gas - out.gas, out.refund);
        ChargedBound(m.gas, out.gas, out.refund, cost);
        SettledTotal(out.world, m, coinbase, used);
      }
    }
  }

  lemma PaidTotal(w: World, m: Message)
    requires Fee(m.gas, m.gasPrice) <= Balance(w.balances, m.from)
    ensures Total(Paid(w, m).balances) == Total(w.balances) - Fee(m.gas, m.gasPrice)
    ensures Entered(w, m).balances == Paid(w, m).balances
  {
    hide Total, Fee;
    TotalUpdate(w.balances, m.from, Balance(w.balances, m.from) - Fee(m.gas, m.gasPrice));
  }

  lemma SettledTotal(w: World, m: Message, coinbase: Addr, used: nat)
    requires used <= m.gas
    ensures Total(Settled(w, m, coinbase, used).balances) == Total(w.balances) + Fee(m.gas, m.gasPrice)
  {
    hide Total, Fee;
    var b, price := w.balances, m.gasPrice;
    TotalUpdate(b, m.from, Balance(b, m.from) + Fee(m.gas - used, price));
    var c := Credit(b, m.from, Fee(m.gas - used, price));
    TotalUpdate(c, coinbase, Balance(c, coinbase) + Fee(used, price));
    Shares(m.gas, used, price);
  }

  lemma ChargedBound(gas: nat, left: nat, refundable: nat, cost: nat)
    requires cost <= gas && left <= gas - cost
    ensures Charged(gas - left, refundable) <= gas && cost <= 2 * Charged(gas - left, refundable)
  {
  }

  lemma Shares(gas: nat, used: nat, price: nat)
    requires used <= gas
    ensures Fee(gas - used, price) + Fee(used, price) == Fee(gas, price)
  {
  }

  ghost function Sum(s: seq<nat>): nat {
    if s == [] then 0 else Sum(s[..|s| - 1]) + s[|s| - 1]
  }

  // ---------------------------------------------------------------- the gas pool of a block

  class GasPool {
    var gas: nat

    ghost predicate Valid()
      reads this
    {
      gas <= MAX_UINT64
    }

    constructor (gas: nat)
      requires gas <= MAX_UINT64
      ensures Valid() && this.gas == gas
    {
      this.gas := gas;
    }

    /** `AddGas`: it panics if and only if the pool would not fit. */
    method AddGas(amount: nat) returns (panics: bool)
      requires Valid() && amount <= MAX_UINT64
      modifies this
      ensures Valid() && panics == (old(gas) + amount > MAX_UINT64)
      ensures gas == if panics then old(gas) else old(gas) + amount
    {
      if gas > MAX_UINT64 - amount {
        return true;
      }
      gas := gas + amount;
      return false;
    }

    /** `SubGas` */
    method SubGas(amount: nat) returns (ok: bool)
      requires Valid()
      modifies this
      ensures Valid() && ok == (amount <= old(gas)) && gas == if ok then old(gas) - amount else old(gas)
    {
      if gas < amount {
        return false;
      }
      gas := gas - amount;
      return true;
    }
  }

  class StateDB {
    var world: World

    constructor (world: World)
      ensures this.world == world
    {
      this.world := world;
    }
  }

  // ---------------------------------------------------------------- one message

  class StateTransition {
    const gp: GasPool
    const db: StateDB
    const msg: Message
    const evm: Machine
    const coinbase: Addr
    const homestead: bool
    var gas: nat
    var initialGas: nat

    ghost predicate Valid()
      reads this, gp
    {
      gp.Valid() && gas <= initialGas <= MAX_UINT64 && gp.gas + initialGas <= MAX_UINT64
    }

    /** `NewStateTransition` */
    constructor (gp: GasPool, db: StateDB, msg: Message, evm: Machine, coinbase: Addr, homestead: bool)
      requires gp.Valid()
      ensures Valid() && gas == 0 && initialGas == 0
      ensures this.gp == gp && this.db == db && this.msg == msg && this.evm == evm && this.coinbase == coinbase
      ensures this.homestead == homestead
    {
      this.gp, this.db, this.msg, this.evm, this.coinbase, this.homestead := gp, db, msg, evm, coinbase, homestead;
      gas, initialGas := 0, 0;
    }

    /** `buyGas`: the sender pays for all the gas of the message in advance. */
    method BuyGas() returns (err: Option<TxError>)
      requires gp.Valid() && gas == 0 && initialGas == 0 && msg.gas <= MAX_UINT64
      modifies this, gp, db
      ensures Valid()
      ensures err == if Balance(old(db.world).balances, msg.from) < Fee(msg.gas, msg.gasPrice)
              then Some(InsufficientBalanceForGas)
                     else if old(gp.gas) < msg.gas then Some(GasLimitReached) else None
      ensures err.Some? ==> gp.gas == old(gp.gas) && db.world == old(db.world) && gas == 0
      ensures err.None? ==>
                && gp.gas == old(gp.gas) - msg.gas && gas == initialGas == msg.gas
                && Fee(msg.gas, msg.gasPrice) <= Balance(old(db.world).balances, msg.from)
                && db.world == Paid(old(db.world), msg)
    {
      var cost := Fee(msg.gas, msg.gasPrice);
      if Balance(db.world.balances, msg.from) < cost {
        return Some(InsufficientBalanceForGas);
      }
      var ok := gp.SubGas(msg.gas);
      if !ok {
        return Some(GasLimitReached);
      }
      gas, initialGas := gas + msg.gas, msg.gas;
      db.world := db.world.(balances := Debit(db.world.balances, msg.from, cost));
      return None;
    }

    /** `preCheck`: the nonce must fit, if it is checked at all; then gas is bought. */
    method PreCheck() returns (err: Option<TxError>)
      requires gp.Valid() && gas == 0 && initialGas == 0 && msg.gas <= MAX_UINT64
      modifies this, gp, db
      ensures Valid() && err == Objection(old(db.world), old(gp.gas), msg)
      ensures err.Some? ==> gp.gas == old(gp.gas) && db.world == old(db.world)
      ensures err.None? ==>
                && gp.gas == old(gp.gas) - msg.gas && gas == initialGas == msg.gas
                && Fee(msg.gas, msg.gasPrice) <= Balance(old(db.world).balances, msg.from)
                && db.world == Paid(old(db.world), msg)
    {
      if msg.checkNonce {
        var nonce := NonceOf(db.world, msg.from);
        if nonce < msg.nonce {
          return Some(NonceTooHigh);
        } else if nonce > msg.nonce {
          return Some(NonceTooLow);
        }
      }
      err := BuyGas();
    }

    /** `useGas` */
    method UseGas(amount: nat) returns (ok: bool)
      requires Valid()
      modifies this`gas
      ensures Valid() && ok == (amount <= old(gas)) && gas == if ok then old(gas) - amount else old(gas)
    {
      if gas < amount {
        return false;
      }
      gas := gas - amount;
      return true;
    }

    /** `refundGas`: part of what was used, at most half of it, comes back; the sender is paid for
        all gas that is left, and it goes back to the pool, which never overflows. */
    method RefundGas(refundable: nat) returns (panics: bool)
      requires Valid()
      modifies this`gas, gp, db
      ensures gp.Valid() && !panics && old(gas) <= gas <= initialGas
      ensures initialGas - gas == Charged(initialGas - old(gas), refundable) && gp.gas == old(gp.gas) + gas
      ensures db.world == old(db.world).(balances := Credit(old(db.world).balances, msg.from, Fee(gas, msg.gasPrice)))
    {
      var refund := (initialGas - gas) / 2;
      if refund > refundable {
        refund := refundable;
      }
      gas := gas + refund;
      db.world := db.world.(balances := Credit(db.world.balances, msg.from, Fee(gas, msg.gasPrice)));
      panics := gp.AddGas(gas);
    }

    /** `TransitionDb`: the message is checked, paid for, run and settled. */
    method TransitionDb() returns (r: Result)
      requires gp.Valid() && gas == 0 && initialGas == 0 && msg.gas <= MAX_UINT64 && Frugal(evm)
      modifies this, gp, db
      ensures gp.Valid() && After(db.world, gp.gas, r) ==
                Applied(old(db.world), old(gp.gas), msg, evm, coinbase, homestead)
    {
      hide Total, Intrinsic, Fee, Credit, Debit, Balance, Charged, Settled;
      ghost var w, pool := db.world, gp.gas;
      var err := PreCheck();
      if err.Some? {
        return Failed(err.value);
      }
      var cost := IntrinsicGas(msg.data, msg.to.None?, homestead);
      if cost.None? {
        return Failed(OutOfGas);
      }
      var ok := UseGas(cost.value);
      if !ok {
        return Failed(OutOfGas);
      }
      if msg.to.Some? {
        db.world := db.world.(nonces := db.world.nonces[msg.from := NonceOf(db.world, msg.from) + 1]);
      }
      var out := evm(db.world, msg, gas);
      assert out == evm(Entered(w, msg), msg, msg.gas - Intrinsic(msg.data, msg.to.None?, homestead));
      db.world, gas := out.world, out.gas;
      if out.failed && out.insufficient {
        return Failed(InsufficientBalance);
      }
      var used := Settle(out.refund);
      return Used(used, out.failed);
    }

    /** The end of `TransitionDb`: the refund, and the fee of the miner. */
    method Settle(refundable: nat) returns (used: nat)
      requires Valid() && initialGas == msg.gas
      modifies this`gas, gp, db
      ensures gp.Valid() && used == Charged(msg.gas - old(gas), refundable) && used <= msg.gas
      ensures gp.gas == old(gp.gas) + msg.gas - used && db.world == Settled(old(db.world), msg, coinbase, used)
    {
      hide Fee, Credit, Charged;
      var panics := RefundGas(refundable);
      used := initialGas - gas;
      db.world := db.world.(balances := Credit(db.world.balances, coinbase, Fee(used, msg.gasPrice)));
    }
  }

  // ---------------------------------------------------------------- a block of messages

  /** The worlds of a block, before each message and in the end, and the gas each message used. */
  ghost predicate Block(worlds: seq<World>, used: seq<nat>, pool: nat, msgs: seq<Message>, evm: Machine, coinbase: Addr,
                        homestead: bool)
    requires Frugal(evm)
  {
    && |worlds| == |used| + 1 && |used| <= |msgs| && Sum(used) <= pool
    && forall i :: 0 <= i < |used| ==> Sum(used[..i]) <= pool
                                       && Follows(worlds, used, pool, msgs, evm, coinbase, homestead, i)
  }

  ghost predicate Follows(worlds: seq<World>, used: seq<nat>, pool: nat, msgs: seq<Message>, evm: Machine,
                          coinbase: Addr, homestead: bool, i: nat)
    requires Frugal(evm) && |worlds| == |used| + 1 && i < |used| <= |msgs| && Sum(used[..i]) <= pool
  {
    var a := Applied(worlds[i], pool - Sum(used[..i]), msgs[i], evm, coinbase, homestead);
    a.world == worlds[i + 1] && a.result.Used? && a.result.gas == used[i]
  }

  /** The machine's own changes to the sum of all balances, message by message. */
  ghost function Drifts(worlds: seq<World>, msgs: seq<Message>, evm: Machine, homestead: bool): int
    requires |worlds| >= 1 && |msgs| >= |worlds| - 1
  {
    if |worlds| == 1 then 0
    else
      var i := |worlds| - 2;
      var m := msgs[i];
      var cost := Intrinsic(m.data, m.to.None?, homestead);
      Drifts(worlds[..|worlds| - 1], msgs, evm, homestead) +
      (if Fee(m.gas, m.gasPrice) <= Balance(worlds[i].balances, m.from) && cost <= m.gas then
         Drift(evm, Entered(worlds[i], m), m, m.gas - cost)
       else 0)
  }

  /** The messages of a block one after the other, until one is refused. The gas pool falls by
      exactly the gas used, and the sum of all balances changes only by what the machine does. A
      refused message does what it does alone, on top of that. */
  method ApplyAll(gp: GasPool, db: StateDB, msgs: seq<Message>, evm: Machine, coinbase: Addr, homestead: bool)
    returns (used: seq<nat>, err: Option<TxError>, ghost worlds: seq<World>)
    requires gp.Valid() && Frugal(evm) && forall i :: 0 <= i < |msgs| ==> msgs[i].gas <= MAX_UINT64
    modifies gp, db
    ensures gp.Valid() && Block(worlds, used, old(gp.gas), msgs, evm, coinbase, homestead) && worlds[0] == old(db.world)
    ensures Total(worlds[|used|].balances) == Total(old(db.world).balances) + Drifts(worlds, msgs, evm, homestead)
    ensures forall i :: 0 <= i < |used| ==>
              Intrinsic(msgs[i].data, msgs[i].to.None?, homestead) <= 2 * used[i] && used[i] <= msgs[i].gas
    ensures err.None? ==> |used| == |msgs| && db.world == worlds[|used|] && gp.gas == old(gp.gas) - Sum(used)
    ensures err.Some? ==>
              && |used| < |msgs|
              && After(db.world, gp.gas, Failed(err.value))
                 == Applied(worlds[|used|], old(gp.gas) - Sum(used), msgs[|used|], evm, coinbase, homestead)
  {
    hide Total, Intrinsic, Applied, Block, Drifts;
    used, worlds := [], [db.world];
    NoBlock(db.world, gp.gas, msgs, evm, coinbase, homestead);
    while |used| < |msgs|
      invariant gp.Valid() && |used| <= |msgs| && Block(worlds, used, old(gp.gas), msgs, evm, coinbase, homestead)
      invariant |worlds| == |used| + 1 && worlds[0] == old(db.world) && worlds[|used|] == db.world
      invariant gp.gas == old(gp.gas) - Sum(used)
      invariant Total(db.world.balances) == Total(old(db.world).balances) + Drifts(worlds, msgs, evm, homestead)
      invariant forall i :: 0 <= i < |used| ==>
                  Intrinsic(msgs[i].data, msgs[i].to.None?, homestead) <= 2 * used[i] && used[i] <= msgs[i].gas
    {
      var msg := msgs[|used|];
      var st := new StateTransition(gp, db, msg, evm, coinbase, homestead);
      ghost var w, pool := db.world, gp.gas;
      var r := st.TransitionDb();
      if r.Failed? {
        return used, Some(r.err), worlds;
      }
      NextInBlock(worlds, used, old(gp.gas), msgs, evm, coinbase, homestead, pool, db.world, gp.gas, r);
      used, worlds := used + [r.gas], worlds + [db.world];
    }
    err := None;
  }

  lemma NoBlock(w: World, pool: nat, msgs: seq<Message>, evm: Machine, coinbase: Addr, homestead: bool)
    requires Frugal(evm)
    ensures Block([w], [], pool, msgs, evm, coinbase, homestead) && Drifts([w], msgs, evm, homestead) == 0
  {
  }

  lemma NextInBlock(worlds: seq<World>, used: seq<nat>, pool0: nat, msgs: seq<Message>, evm: Machine, coinbase: Addr,
                    homestead: bool, pool: nat, w': World, pool': nat, r: Result)
    requires Frugal(evm) && Block(worlds, used, pool0, msgs, evm, coinbase, homestead) && |used| < |msgs|
             && pool == pool0 - Sum(used)
    requires r.Used? && After(w', pool', r) == Applied(worlds[|used|], pool, msgs[|used|], evm, coinbase, homestead)
    ensures Block(worlds + [w'], used + [r.gas], pool0, msgs, evm, coinbase, homestead)
            && pool' == pool0 - Sum(used + [r.gas])
    ensures Total(w'.balances) - Drifts(worlds + [w'], msgs, evm, homestead)
         == Total(worlds[|used|].balances) - Drifts(worlds, msgs, evm, homestead)
    ensures Intrinsic(msgs[|used|].data, msgs[|used|].to.None?, homestead) <= 2 * r.gas && r.gas <= msgs[|used|].gas
  {
    hide Total, Intrinsic, Applied, Drift, Entered, Objection, Follows, Drifts, Fee;
    var n, m := |used|, msgs[|used|];
    Conserved(worlds[n], pool, m, evm, coinbase, homestead);
    CanPay(worlds[n], pool, m);
    SumMore(used, r.gas);
    BlockMore(worlds, used, pool0, msgs, evm, coinbase, homestead, w', r);
    DriftsMore(worlds, msgs, evm, homestead, w');
  }

  lemma SumMore(used: seq<nat>, x: nat)
    ensures Sum(used + [x]) == Sum(used) + x
  {
    assert (used + [x])[..|used|] == used;
  }

  lemma BlockMore(worlds: seq<World>, used: seq<nat>, pool: nat, msgs: seq<Message>, evm: Machine, coinbase: Addr,
                  homestead: bool, w': World, r: Result)
    requires Frugal(evm) && Block(worlds, used, pool, msgs, evm, coinbase, homestead) && |used| < |msgs| && r.Used?
    requires var a := Applied(worlds[|used|], pool - Sum(used), msgs[|used|], evm, coinbase,
                              homestead); a.world == w' && a.result == r
    requires Sum(used) + r.gas <= pool
    ensures Block(worlds + [w'], used + [r.gas], pool, msgs, evm, coinbase, homestead)
  {
    hide Applied, Sum;
    SumMore(used, r.gas);
    var ws, us := worlds + [w'], used + [r.gas];
    forall i | 0 <= i < |us| ensures Sum(us[..i]) <= pool && Follows(ws, us, pool, msgs, evm, coinbase, homestead, i) {
      assert us[..i] == used[..i];
      if i < |used| {
        assert Follows(worlds, used, pool, msgs, evm, coinbase, homestead, i);
      } else {
        assert used[..i] == used;
      }
    }
  }

  lemma DriftsMore(worlds: seq<World>, msgs: seq<Message>, evm: Machine, homestead: bool, w': World)
    requires 1 <= |worlds| <= |msgs|
    ensures var n := |worlds| - 1;
            var m := msgs[n];
            var cost := Intrinsic(m.data, m.to.None?, homestead);
            Drifts(worlds + [w'], msgs, evm, homestead) == Drifts(worlds, msgs, evm, homestead) +
              (if Fee(m.gas, m.gasPrice) <= Balance(worlds[n].balances, m.from) && cost <= m.gas then
                 Drift(evm, Entered(worlds[n], m), m, m.gas - cost)
               else 0)
  {
    hide Drift, Entered, Intrinsic, Fee;
    assert (worlds + [w'])[..|worlds|] == worlds;
  }

  lemma CanPay(w: World, pool: nat, m: Message)
    requires Objection(w, pool, m).None?
    ensures Fee(m.gas, m.gasPrice) <= Balance(w.balances, m.from) && m.gas <= pool
  {
  }
}
