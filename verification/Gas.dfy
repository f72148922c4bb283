/**
Gas accounting of public transactions: buying gas from the block's gas pool, paying intrinsic
gas, executing, refunding, and the running total over a block. Execution itself is a parameter.
*/
module GasAccounting {
  import opened Sums

  type Address = nat
  type Balances = map<Address, nat>

  const UINT64_LIMIT: nat := 0x1_0000_0000_0000_0000

  const TX_GAS: nat := 21000
  const TX_GAS_CONTRACT_CREATION: nat := 53000
  const TX_DATA_ZERO_GAS: nat := 4
  const TX_DATA_NON_ZERO_GAS: nat := 68

  datatype World = World(balances: Balances, nonces: map<Address, nat>) {
    function Balance(a: Address): nat {
      if a in balances then balances[a] else 0
    }

    function Nonce(a: Address): nat {
      if a in nonces then nonces[a] else 0
    }

    function Credit(a: Address, amount: nat): World {
      this.(balances := balances[a := Balance(a) + amount])
    }

    function Debit(a: Address, amount: nat): World
      requires amount <= Balance(a)
    {
      this.(balances := balances[a := Balance(a) - amount])
    }
  }

  datatype Message = Message(
    from: Address, creation: bool, nonce: nat, checkNonce: bool, gas: nat, gasPrice: nat, data: seq<bv8>)

  datatype VmStatus = Success | InsufficientBalance | OtherFailure

  /** What an execution leaves: the new world, unused gas and the refund counter. */
  datatype Outcome = Outcome(world: World, left: nat, refund: nat, status: VmStatus)

  type Evm = (World, nat) -> Outcome

  /** Execution uses no more gas than supplied, and moves balances without creating or destroying any. */
  ghost predicate Honest(evm: Evm) {
    forall w: World, gas: nat :: evm(w, gas).left <= gas && Total(evm(w, gas).world.balances) == Total(w.balances)
  }

  datatype TxError = NonceTooHigh | NonceTooLow | OutOfGas | InsufficientBalanceForGas | GasLimitReached | NoBalance | InvalidGasPrice

  datatype Result = Failed(error: TxError) | Done(gasUsed: nat, vmFailed: bool)

  /** The sum of all balances. */
  ghost function Total(b: Balances): nat {
    Sum(b)
  }

  function NonZero(data: seq<bv8>): (n: nat)
    ensures n <= |data|
  {
    if data == [] then 0 else NonZero(data[..|data| - 1]) + if data[|data| - 1] != 0 then 1 else 0
  }

  /** The gas every transaction pays up front: a base amount, and a price for each zero and non-zero byte. */
  function Intrinsic(data: seq<bv8>, creation: bool, homestead: bool): nat {
    (if creation && homestead then TX_GAS_CONTRACT_CREATION else TX_GAS)
    + NonZero(data) * TX_DATA_NON_ZERO_GAS + (|data| - NonZero(data)) * TX_DATA_ZERO_GAS
  }

  /** The places of the zero bytes, or of the others. */
  ghost function Places(data: seq<bv8>, zero: bool): set<nat> {
    set i: nat | i < |data| && (data[i] == 0) == zero
  }

  lemma PlacesNext(data: seq<bv8>, zero: bool)
    requires data != []
    ensures |Places(data, zero)| == |Places(data[..|data| - 1], zero)| + if (data[|data| - 1] == 0) == zero then 1 else 0
  {
    var n, init := |data| - 1, data[..|data| - 1];
    forall i: nat ensures i in Places(data, zero) <==> i in Places(init, zero) || (i == n && (data[n] == 0) == zero) {
      if i < n {
        assert init[i] == data[i];
      }
    }
    TopAdded(Places(data, zero), Places(init, zero), n, (data[n] == 0) == zero);
  }

  lemma TopAdded(s: set<nat>, s': set<nat>, n: nat, b: bool)
    requires n !in s' && forall i :: i in s <==> i in s' || (i == n && b)
    ensures |s| == |s'| + if b then 1 else 0
  {
    assert s == if b then s' + {n} else s';
  }

  lemma {:induction false} BytesCounted(data: seq<bv8>)
    ensures NonZero(data) == |Places(data, false)| && |data| - NonZero(data) == |Places(data, true)|
  {
    if data == [] {
      assert Places(data, false) == {} && Places(data, true) == {};
    } else {
      BytesCounted(data[..|data| - 1]);
      hide Places;
      PlacesNext(data, false);
      PlacesNext(data, true);
    }
  }

  method IntrinsicGas(data: seq<bv8>, creation: bool, homestead: bool) returns (gas: nat)
    ensures gas == Intrinsic(data, creation, homestead)
    ensures gas == (if creation && homestead then 53000 else 21000)
      + 68 * |Places(data, false)| + 4 * |Places(data, true)|
  {
    hide Places;
    BytesCounted(data);
    gas := if creation && homestead then TX_GAS_CONTRACT_CREATION else TX_GAS;
    if |data| > 0 {
      var nz: nat := 0;
      for i := 0 to |data|
        invariant nz == NonZero(data[..i])
      {
        assert data[..i + 1][..i] == data[..i];
        if data[i] != 0 {
          nz := nz + 1;
        }
      }
      assert data[..|data|] == data;
      gas := gas + nz * TX_DATA_NON_ZERO_GAS;
      gas := gas + (|data| - nz) * TX_DATA_ZERO_GAS;
    }
  }

  class GasPool {
    var gas: nat

    constructor (gas: nat)
      ensures this.gas == gas
    {
      this.gas := gas;
    }

    method AddGas(amount: nat)
      modifies this
      ensures gas == old(gas) + amount
    {
      gas := gas + amount;
    }

    method SubGas(amount: nat) returns (ok: bool)
      modifies this
      ensures ok <==> amount <= old(gas)
      ensures gas == if ok then old(gas) - amount else old(gas)
    {
      if gas < amount {
        return false;
      }
      gas := gas - amount;
      ok := true;
    }
  }

  class StateDb {
    var world: World

    constructor (world: World)
      ensures this.world == world
    {
      this.world := world;
    }
  }

  /** What an amount of gas costs. */
  function Fee(gas: nat, price: nat): nat {
    gas * price
  }

  /** A fee is the gas times its price. */
  lemma FeeIs(gas: nat, price: nat)
    ensures Fee(gas, price) == gas * price
  {
  }

  lemma FeeAdd(a: nat, b: nat, price: nat)
    ensures Fee(a, price) + Fee(b, price) == Fee(a + b, price)
  {
  }

  /** Why a message cannot start, if it cannot. */
  function Obstacle(w: World, pool: nat, msg: Message): TxError {
    if msg.checkNonce && w.Nonce(msg.from) < msg.nonce then NonceTooHigh
    else if msg.checkNonce && w.Nonce(msg.from) > msg.nonce then NonceTooLow
    else if msg.gas >= UINT64_LIMIT then OutOfGas
    else if w.Balance(msg.from) < Fee(msg.gas, msg.gasPrice) then InsufficientBalanceForGas
    else GasLimitReached
  }

  predicate Starts(w: World, pool: nat, msg: Message) {
    && (msg.checkNonce ==> w.Nonce(msg.from) == msg.nonce)
    && msg.gas < UINT64_LIMIT && Fee(msg.gas, msg.gasPrice) <= w.Balance(msg.from) && msg.gas <= pool
  }

  /** Why a message cannot start, each reason on its own: the nonce, then its gas, then the balance, then the block's gas. */
  lemma ObstacleMeaning(w: World, pool: nat, msg: Message)
    requires !Starts(w, pool, msg)
    ensures var e := Obstacle(w, pool, msg);
      var nonceOk := msg.checkNonce ==> w.Nonce(msg.from) == msg.nonce;
      && (e == NonceTooHigh <==> msg.checkNonce && msg.nonce > w.Nonce(msg.from))
      && (e == NonceTooLow <==> msg.checkNonce && msg.nonce < w.Nonce(msg.from))
      && (e == OutOfGas <==> nonceOk && msg.gas >= 0x1_0000_0000_0000_0000)
      && (e == InsufficientBalanceForGas <==>
            nonceOk && msg.gas < 0x1_0000_0000_0000_0000 && w.Balance(msg.from) < msg.gas * msg.gasPrice)
      && (e == GasLimitReached ==> msg.gas > pool)
  {
    hide Fee;
    FeeIs(msg.gas, msg.gasPrice);
  }

  /** The message can pay its intrinsic gas. */
  predicate Covers(msg: Message, homestead: bool) {
    Intrinsic(msg.data, msg.creation, homestead) < UINT64_LIMIT && Intrinsic(msg.data, msg.creation, homestead) <= msg.gas
  }

  /** The refund: the counter, capped to half of the gas consumed. */
  function Refund(consumed: nat, counter: nat): (r: nat)
    ensures 2 * r <= consumed && r <= counter
    ensures forall x: nat :: 2 * x <= consumed && x <= counter ==> x <= r
  {
    if consumed / 2 < counter then consumed / 2 else counter
  }

  /** The least charge that the refund counter and the cap of half the consumed gas allow. */
  ghost predicate Charged(consumed: nat, counter: nat, used: nat) {
    && used <= consumed <= used + counter && consumed <= 2 * used
    && (used + counter == consumed || 2 * used <= consumed + 1)
  }

  lemma RefundCharges(consumed: nat, counter: nat)
    ensures Charged(consumed, counter, consumed - Refund(consumed, counter))
  {
    hide Refund;
    var r := Refund(consumed, counter);
    if r < counter && 2 * (r + 1) <= consumed {
      assert false;
    }
  }

  /** The world that execution starts from: gas is paid for, and a call has taken its nonce. */
  function Started(w: World, msg: Message): World
    requires Fee(msg.gas, msg.gasPrice) <= w.Balance(msg.from)
  {
    var w' := w.Debit(msg.from, Fee(msg.gas, msg.gasPrice));
    if msg.creation then w' else w'.(nonces := w'.nonces[msg.from := w'.Nonce(msg.from) + 1])
  }

  lemma CreditTwice(w: World, a: Address, x: nat, y: nat)
    ensures w.Credit(a, x).Credit(a, y) == w.Credit(a, x + y)
  {
  }

  /** Buying gas, executing, and paying out the same amount again conserves the total. */
  lemma Conserves(w: World, msg: Message, out: Outcome, used: nat, coinbase: Address)
    requires Fee(msg.gas, msg.gasPrice) <= w.Balance(msg.from) && used <= msg.gas
    requires Total(out.world.balances) == Total(Started(w, msg).balances)
    ensures var w1 := out.world.Credit(msg.from, Fee(msg.gas - used, msg.gasPrice));
      Total(w1.Credit(coinbase, Fee(used, msg.gasPrice)).balances) == Total(w.balances)
  {
    hide Sum, Fee;
    FeeAdd(msg.gas - used, used, msg.gasPrice);
    SumPut(w.balances, msg.from, w.Balance(msg.from) - Fee(msg.gas, msg.gasPrice));
    var w1 := out.world.Credit(msg.from, Fee(msg.gas - used, msg.gasPrice));
    SumPut(out.world.balances, msg.from, out.world.Balance(msg.from) + Fee(msg.gas - used, msg.gasPrice));
    SumPut(w1.balances, coinbase, w1.Balance(coinbase) + Fee(used, msg.gasPrice));
  }

  class StateTransition {
    const pool: GasPool
    const state: StateDb
    const msg: Message
    const coinbase: Address
    const homestead: bool

    var gas: nat
    var initialGas: nat

    constructor (pool: GasPool, state: StateDb, msg: Message, coinbase: Address, homestead: bool)
      ensures this.pool == pool && this.state == state && this.msg == msg && this.coinbase == coinbase && this.homestead == homestead
      ensures gas == 0 && initialGas == 0
    {
      this.pool, this.state, this.msg, this.coinbase, this.homestead := pool, state, msg, coinbase, homestead;
      gas, initialGas := 0, 0;
    }

    method UseGas(amount: nat) returns (ok: bool)
      modifies this`gas
      ensures ok <==> amount <= old(gas)
      ensures gas == if ok then old(gas) - amount else old(gas)
    {
      if gas < amount {
        return false;
      }
      gas := gas - amount;
      ok := true;
    }

    /** Checks the nonce and buys the message's gas; a message that cannot start changes nothing. */
    method PreCheck() returns (error: TxError, ok: bool)
      requires gas == 0
      modifies this, pool, state
      ensures ok <==> Starts(old(state.world), old(pool.gas), msg)
      ensures ok <==>
        && (msg.checkNonce ==> old(state.world).Nonce(msg.from) == msg.nonce) && msg.gas < 0x1_0000_0000_0000_0000
        && msg.gas * msg.gasPrice <= old(state.world).Balance(msg.from) && msg.gas <= old(pool.gas)
      ensures !ok ==> error == Obstacle(old(state.world), old(pool.gas), msg)
      ensures !ok ==> state.world == old(state.world) && pool.gas == old(pool.gas)
      ensures ok ==>
        && gas == initialGas == msg.gas && pool.gas == old(pool.gas) - msg.gas
        && state.world == old(state.world).Debit(msg.from, Fee(msg.gas, msg.gasPrice))
    {
      hide Fee;
      FeeIs(msg.gas, msg.gasPrice);
      error, ok := OutOfGas, false;
      var w := state.world;
      if msg.checkNonce {
        if w.Nonce(msg.from) < msg.nonce {
          error := NonceTooHigh;
          return;
        } else if w.Nonce(msg.from) > msg.nonce {
          error := NonceTooLow;
          return;
        }
      }
      if msg.gas >= UINT64_LIMIT {
        return;
      }
      var cost := Fee(msg.gas, msg.gasPrice);
      if w.Balance(msg.from) < cost {
        error := InsufficientBalanceForGas;
        return;
      }
      var enough := pool.SubGas(msg.gas);
      if !enough {
        error := GasLimitReached;
        return;
      }
      gas := gas + msg.gas;
      initialGas := msg.gas;
      state.world := w.Debit(msg.from, cost);
      ok := true;
    }

    /** Returns unused gas and the refund to the sender and to the pool; the gas counter never overflows. */
    method RefundGas(counter: nat)
      requires gas <= initialGas < UINT64_LIMIT
      modifies this`gas, pool, state
      ensures gas == old(gas) + Refund(initialGas - old(gas), counter) <= initialGas < UINT64_LIMIT
      ensures Charged(initialGas - old(gas), counter, initialGas - gas)
      ensures pool.gas == old(pool.gas) + gas && state.world == old(state.world).Credit(msg.from, Fee(gas, msg.gasPrice))
    {
      hide Fee, World.Credit;
      state.world := state.world.Credit(msg.from, Fee(gas, msg.gasPrice));
      var half := (initialGas - gas) / 2;
      var refund := if half < counter then half else counter;
      FeeAdd(gas, refund, msg.gasPrice);
      CreditTwice(old(state.world), msg.from, Fee(gas, msg.gasPrice), Fee(refund, msg.gasPrice));
      RefundCharges(initialGas - gas, counter);
      gas := gas + refund;
      state.world := state.world.Credit(msg.from, Fee(refund, msg.gasPrice));
      pool.AddGas(gas);
    }

    /**
    Applies the message. If it succeeds, what the sender pays for gas is what the coinbase receives,
    at least half of the consumed gas is charged, the pool loses exactly the gas used, and the sum
    of all balances is unchanged.
    */
    method TransitionDb(evm: Evm) returns (r: Result)
      requires gas == 0 && Honest(evm)
      modifies this, pool, state
      ensures !Starts(old(state.world), old(pool.gas), msg) ==>
        r == Failed(Obstacle(old(state.world), old(pool.gas), msg)) && state.world == old(state.world) && pool.gas == old(pool.gas)
      ensures Starts(old(state.world), old(pool.gas), msg) && !Covers(msg, homestead) ==>
        && r == Failed(OutOfGas) && pool.gas == old(pool.gas) - msg.gas
        && state.world == old(state.world).Debit(msg.from, Fee(msg.gas, msg.gasPrice))
      ensures Starts(old(state.world), old(pool.gas), msg) && Covers(msg, homestead) ==>
        var out := evm(Started(old(state.world), msg), msg.gas - Intrinsic(msg.data, msg.creation, homestead));
        Executed(out, old(pool.gas), msg, coinbase, r, state.world, pool.gas)
      ensures Starts(old(state.world), old(pool.gas), msg) ==>
        (r == Failed(OutOfGas) <==> msg.gas < Intrinsic(msg.data, msg.creation, homestead))
      ensures r.Done? ==> Total(state.world.balances) == Total(old(state.world).balances)
    {
      hide Fee, World.Debit, Total, Intrinsic, Refund, Obstacle;
      ghost var w := state.world;
      var error, ok := PreCheck();
      if !ok {
        return Failed(error);
      }
      var intrinsic := IntrinsicGas(msg.data, msg.creation, homestead);
      if intrinsic >= UINT64_LIMIT {
        return Failed(OutOfGas);
      }
      ok := UseGas(intrinsic);
      if !ok {
        return Failed(OutOfGas);
      }
      if !msg.creation {
        var w := state.world;
        state.world := w.(nonces := w.nonces[msg.from := w.Nonce(msg.from) + 1]);
      }
      assert state.world == Started(w, msg);
      var out := evm(state.world, gas);
      gas := out.left;
      state.world := out.world;
      if out.status == InsufficientBalance {
        return Failed(NoBalance);
      }
      r := Settle(out, w, old(pool.gas));
    }

    /** Refunds the sender and pays the coinbase. */
    method Settle(out: Outcome, ghost w: World, ghost before: nat) returns (r: Result)
      requires gas == out.left <= initialGas == msg.gas < UINT64_LIMIT && out.status != InsufficientBalance
      requires pool.gas + msg.gas == before && state.world == out.world && Fee(msg.gas, msg.gasPrice) <= w.Balance(msg.from)
      requires Total(out.world.balances) == Total(Started(w, msg).balances)
      modifies this`gas, pool, state
      ensures r.Done? && Executed(out, before, msg, coinbase, r, state.world, pool.gas)
      ensures Total(state.world.balances) == Total(w.balances)
    {
      hide Fee, World.Credit, World.Debit, Total, Refund, Started;
      RefundGas(out.refund);
      FeeAdd(gas, initialGas - gas, msg.gasPrice);
      Conserves(w, msg, out, initialGas - gas, coinbase);
      state.world := state.world.Credit(coinbase, Fee(initialGas - gas, msg.gasPrice));
      r := Done(initialGas - gas, out.status == OtherFailure);
    }
  }

  /** The accounts after an execution that used up its gas down to `out.left`. */
  ghost predicate Executed(out: Outcome, pool: nat, msg: Message, coinbase: Address, r: Result, w: World, pool': nat) {
    if out.status == InsufficientBalance then
      r == Failed(NoBalance) && w == out.world && pool' == pool - msg.gas
    else
      && r.Done? && r.vmFailed == (out.status == OtherFailure) && out.left <= msg.gas
      && r.gasUsed == msg.gas - out.left - Refund(msg.gas - out.left, out.refund) && r.gasUsed <= msg.gas
      && Charged(msg.gas - out.left, out.refund, r.gasUsed) && pool' + r.gasUsed == pool
      && Fee(msg.gas, msg.gasPrice) == Fee(msg.gas - r.gasUsed, msg.gasPrice) + Fee(r.gasUsed, msg.gasPrice)
      && w == out.world.Credit(msg.from, Fee(msg.gas - r.gasUsed, msg.gasPrice)).Credit(coinbase, Fee(r.gasUsed, msg.gasPrice))
  }

  /** Where the money goes: the coinbase is paid for the gas used, and the sender gets back what was bought beyond that. */
  lemma Pays(out: Outcome, pool: nat, msg: Message, coinbase: Address, r: Result, w: World, pool': nat)
    requires Executed(out, pool, msg, coinbase, r, w, pool') && r.Done? && coinbase != msg.from
    ensures w.Balance(coinbase) == out.world.Balance(coinbase) + r.gasUsed * msg.gasPrice
    ensures w.Balance(msg.from) == out.world.Balance(msg.from) + (msg.gas - r.gasUsed) * msg.gasPrice
    ensures forall a :: a != coinbase && a != msg.from ==> w.Balance(a) == out.world.Balance(a)
    ensures w.nonces == out.world.nonces
  {
    hide Fee, Refund, Charged;
    FeeIs(r.gasUsed, msg.gasPrice);
    FeeIs(msg.gas - r.gasUsed, msg.gasPrice);
  }

  /** What the sender has paid when execution starts, and that a call has taken its nonce. */
  lemma StartedPaid(w: World, msg: Message)
    requires Fee(msg.gas, msg.gasPrice) <= w.Balance(msg.from)
    ensures var s := Started(w, msg);
      && s.Balance(msg.from) + msg.gas * msg.gasPrice == w.Balance(msg.from)
      && (forall a :: a != msg.from ==> s.Balance(a) == w.Balance(a) && s.Nonce(a) == w.Nonce(a))
      && s.Nonce(msg.from) == if msg.creation then w.Nonce(msg.from) else w.Nonce(msg.from) + 1
  {
    hide Fee;
    FeeIs(msg.gas, msg.gasPrice);
  }

  datatype Receipt = Receipt(gasUsed: nat, cumulative: nat, failed: bool)

  ghost function UsedUpTo(receipts: seq<Receipt>): nat {
    if receipts == [] then 0 else UsedUpTo(receipts[..|receipts| - 1]) + receipts[|receipts| - 1].gasUsed
  }

  /** Each receipt carries the gas used up to and including its transaction. */
  ghost predicate Cumulative(receipts: seq<Receipt>) {
    forall i :: 0 <= i < |receipts| ==> receipts[i].cumulative == UsedUpTo(receipts[..i + 1])
  }

  /** What all messages of a block share. */
  datatype Env = Env(coinbase: Address, homestead: bool, isBitmed: bool)

  /** What the message's execution leaves, from the world and the gas it starts with. */
  ghost function Execution(env: Env, w: World, msg: Message, evm: Evm): Outcome
    requires Fee(msg.gas, msg.gasPrice) <= w.Balance(msg.from) && Covers(msg, env.homestead)
  {
    evm(Started(w, msg), msg.gas - Intrinsic(msg.data, msg.creation, env.homestead))
  }

  /** The message is valid at this point of the block. */
  ghost predicate Applies(env: Env, w: World, pool: nat, msg: Message, evm: Evm) {
    && (env.isBitmed ==> msg.gasPrice == 0) && Starts(w, pool, msg) && Covers(msg, env.homestead)
    && Execution(env, w, msg, evm).status != InsufficientBalance
  }

  /** Why it is not. */
  ghost function Reason(env: Env, w: World, pool: nat, msg: Message): TxError {
    if env.isBitmed && msg.gasPrice > 0 then InvalidGasPrice
    else if !Starts(w, pool, msg) then Obstacle(w, pool, msg)
    else if !Covers(msg, env.homestead) then OutOfGas
    else NoBalance
  }

  /** The price is looked at first; a transfer that cannot be paid is found last, in the execution. */
  lemma ReasonMeaning(env: Env, w: World, pool: nat, msg: Message)
    ensures var e := Reason(env, w, pool, msg);
      && (e == InvalidGasPrice <==> env.isBitmed && msg.gasPrice > 0)
      && (e == NoBalance <==> (env.isBitmed ==> msg.gasPrice == 0) && Starts(w, pool, msg) && Covers(msg, env.homestead))
      && (e != InvalidGasPrice && !Starts(w, pool, msg) ==> e == Obstacle(w, pool, msg))
      && (e != InvalidGasPrice && Starts(w, pool, msg) && !Covers(msg, env.homestead) ==> e == OutOfGas)
  {
    hide Starts, Covers, Fee;
  }

  /** One valid message of the block, with the world and the gas pool before and after it. */
  ghost predicate Applied(env: Env, w: World, pool: nat, msg: Message, evm: Evm, receipt: Receipt, w': World, pool': nat) {
    && Applies(env, w, pool, msg, evm)
    && Executed(Execution(env, w, msg, evm), pool, msg, env.coinbase, Done(receipt.gasUsed, receipt.failed), w', pool')
  }

  /** Applies one message of a block. */
  method ApplyTransaction(env: Env, pool: GasPool, state: StateDb, msg: Message, evm: Evm) returns (r: Result)
    requires Honest(evm)
    modifies pool, state
    ensures r.Done? <==> Applies(env, old(state.world), old(pool.gas), msg, evm)
    ensures r.Done? ==> forall c: nat ::
      Applied(env, old(state.world), old(pool.gas), msg, evm, Receipt(r.gasUsed, c, r.vmFailed), state.world, pool.gas)
    ensures r.Done? ==> pool.gas + r.gasUsed == old(pool.gas) && Total(state.world.balances) == Total(old(state.world).balances)
    ensures r.Failed? ==> r.error == Reason(env, old(state.world), old(pool.gas), msg)
  {
    hide Total, Honest, Fee, Starts, Covers, Obstacle, Intrinsic, Started, Refund, World.Credit, World.Debit;
    if env.isBitmed && msg.gasPrice > 0 {
      return Failed(InvalidGasPrice);
    }
    var st := new StateTransition(pool, state, msg, env.coinbase, env.homestead);
    r := st.TransitionDb(evm);
  }

  /** A block's messages one after the other: the worlds and pools between them, and the receipts. */
  datatype Trace = Trace(worlds: seq<World>, pools: seq<nat>, receipts: seq<Receipt>)

  ghost predicate Traced(env: Env, world: World, gasLimit: nat, msgs: seq<Message>, evms: seq<Evm>, t: Trace) {
    && |t.worlds| == |t.pools| == |t.receipts| + 1 && |t.receipts| <= |msgs| == |evms| && t.worlds[0] == world && t.pools[0] == gasLimit
    && forall i :: 0 <= i < |t.receipts| ==>
         Applied(env, t.worlds[i], t.pools[i], msgs[i], evms[i], t.receipts[i], t.worlds[i + 1], t.pools[i + 1])
  }

  /** After each message the pool and the gas used make up the limit, and no balance is created or lost. */
  ghost predicate Balanced(world: World, gasLimit: nat, t: Trace) {
    && |t.worlds| == |t.pools| == |t.receipts| + 1
    && forall i :: 0 <= i <= |t.receipts| ==>
         t.pools[i] + UsedUpTo(t.receipts[..i]) == gasLimit && Total(t.worlds[i].balances) == Total(world.balances)
  }

  datatype BlockResult = Accepted(receipts: seq<Receipt>, totalUsed: nat) | Rejected(error: TxError)

  /** Runs a block's messages in order, up to the first that is invalid. */
  method Process(env: Env, state: StateDb, msgs: seq<Message>, evms: seq<Evm>, gasLimit: nat)
    returns (r: BlockResult, pool: GasPool, ghost t: Trace)
    requires |evms| == |msgs| && forall i :: 0 <= i < |evms| ==> Honest(evms[i])
    modifies state
    ensures Traced(env, old(state.world), gasLimit, msgs, evms, t)
    ensures Balanced(old(state.world), gasLimit, t) && Cumulative(t.receipts)
    ensures var n := |t.receipts|;
      if n == |msgs| then
        r == Accepted(t.receipts, UsedUpTo(t.receipts)) && state.world == t.worlds[n] && pool.gas == t.pools[n]
      else
        && !Applies(env, t.worlds[n], t.pools[n], msgs[n], evms[n])
        && r == Rejected(Reason(env, t.worlds[n], t.pools[n], msgs[n]))
  {
    hide Total, Honest, Applies, Applied, Reason, UsedUpTo, Cumulative, Balanced, Traced;
    pool := new GasPool(gasLimit);
    var receipts, totalUsed := [], 0;
    t := Trace([state.world], [gasLimit], []);
    TraceFirst(env, state.world, gasLimit, msgs, evms);
    for i := 0 to |msgs|
      invariant fresh(pool) && receipts == t.receipts && totalUsed == UsedUpTo(receipts) && |receipts| == i
      invariant Traced(env, old(state.world), gasLimit, msgs, evms, t) && Balanced(old(state.world), gasLimit, t) && Cumulative(receipts)
      invariant |t.worlds| == |t.pools| == i + 1 && t.worlds[i] == state.world && t.pools[i] == pool.gas
    {
      var s := ApplyTransaction(env, pool, state, msgs[i], evms[i]);
      if s.Failed? {
        r := Rejected(s.error);
        return;
      }
      totalUsed := totalUsed + s.gasUsed;
      var receipt := Receipt(s.gasUsed, totalUsed, s.vmFailed);
      receipts := receipts + [receipt];
      TraceNext(env, old(state.world), gasLimit, msgs, evms, t, receipt, state.world, pool.gas);
      t := Trace(t.worlds + [state.world], t.pools + [pool.gas], receipts);
    }
    r := Accepted(receipts, totalUsed);
  }

  lemma TraceFirst(env: Env, world: World, gasLimit: nat, msgs: seq<Message>, evms: seq<Evm>)
    requires |evms| == |msgs|
    ensures var t := Trace([world], [gasLimit], []); Traced(env, world, gasLimit, msgs, evms, t) && Balanced(world, gasLimit, t)
    ensures UsedUpTo([]) == 0 && Cumulative([])
  {
    hide Total, Applied;
  }

  lemma TraceNext(env: Env, world: World, gasLimit: nat, msgs: seq<Message>, evms: seq<Evm>, t: Trace, receipt: Receipt, w: World, pool: nat)
    requires Traced(env, world, gasLimit, msgs, evms, t) && Balanced(world, gasLimit, t) && Cumulative(t.receipts)
    requires var n := |t.receipts|;
      && n < |msgs| && Applied(env, t.worlds[n], t.pools[n], msgs[n], evms[n], receipt, w, pool)
      && pool + receipt.gasUsed == t.pools[n] && Total(w.balances) == Total(t.worlds[n].balances)
    requires receipt.cumulative == UsedUpTo(t.receipts) + receipt.gasUsed
    ensures var t' := Trace(t.worlds + [w], t.pools + [pool], t.receipts + [receipt]);
      && Traced(env, world, gasLimit, msgs, evms, t') && Balanced(world, gasLimit, t') && Cumulative(t'.receipts)
      && UsedUpTo(t'.receipts) == receipt.cumulative
  {
    hide Total, Applied, Cumulative, UsedUpTo;
    AppendReceipt(t.receipts, receipt);
    var n, all := |t.receipts|, t.receipts + [receipt];
    assert all[..n + 1] == all && all[..n] == t.receipts && t.receipts[..n] == t.receipts;
    forall i | 0 <= i <= n ensures all[..i] == t.receipts[..i] { }
  }

  /** A block has one trace: two of them agree as far as both go, but for the running totals. */
  lemma {:induction false} OneTrace(env: Env, world: World, gasLimit: nat, msgs: seq<Message>, evms: seq<Evm>, t: Trace, u: Trace, i: nat)
    requires Traced(env, world, gasLimit, msgs, evms, t) && Traced(env, world, gasLimit, msgs, evms, u)
    requires i <= |t.receipts| && i <= |u.receipts|
    ensures t.worlds[i] == u.worlds[i] && t.pools[i] == u.pools[i]
    ensures i > 0 ==> t.receipts[i - 1].gasUsed == u.receipts[i - 1].gasUsed && t.receipts[i - 1].failed == u.receipts[i - 1].failed
  {
    if i > 0 {
      OneTrace(env, world, gasLimit, msgs, evms, t, u, i - 1);
      hide Applied;
      var k := i - 1;
      AppliedOnce(env, t.worlds[k], t.pools[k], msgs[k], evms[k], t.receipts[k], t.worlds[i], t.pools[i], u.receipts[k], u.worlds[i], u.pools[i]);
    }
  }

  lemma AppliedOnce(env: Env, w: World, pool: nat, msg: Message, evm: Evm, r: Receipt, w1: World, pool1: nat, r': Receipt, w2: World, pool2: nat)
    requires Applied(env, w, pool, msg, evm, r, w1, pool1) && Applied(env, w, pool, msg, evm, r', w2, pool2)
    ensures w1 == w2 && pool1 == pool2 && r.gasUsed == r'.gasUsed && r.failed == r'.failed
  {
    hide Fee, Applies, Refund, Charged, World.Credit, Execution;
  }

  /** A receipt's running total is the one before plus its own gas. */
  lemma RunningTotal(receipts: seq<Receipt>, i: nat)
    requires Cumulative(receipts) && i < |receipts|
    ensures receipts[i].cumulative == (if i == 0 then 0 else receipts[i - 1].cumulative) + receipts[i].gasUsed
  {
    assert receipts[..i + 1][..i] == receipts[..i];
    assert receipts[i].cumulative == UsedUpTo(receipts[..i + 1]);
    if i > 0 {
      assert receipts[i - 1].cumulative == UsedUpTo(receipts[..(i - 1) + 1]);
    }
  }

  lemma AppendReceipt(receipts: seq<Receipt>, r: Receipt)
    requires Cumulative(receipts) && r.cumulative == UsedUpTo(receipts) + r.gasUsed
    ensures Cumulative(receipts + [r]) && UsedUpTo(receipts + [r]) == UsedUpTo(receipts) + r.gasUsed
  {
    var all := receipts + [r];
    assert all[..|all| - 1] == receipts && all[..|all|] == all;
    forall i | 0 <= i < |receipts| ensures all[i].cumulative == UsedUpTo(all[..i + 1]) {
      assert all[..i + 1] == receipts[..i + 1];
    }
  }
}
