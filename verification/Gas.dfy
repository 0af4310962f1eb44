/** Gas accounting: buying gas for a message, running it, refunding what is left, and the totals
    that a block of messages leaves in its receipts and in its gas pool. */
module Gas {
  import opened Wrappers

  const TX_GAS: nat := 21000
  const TX_GAS_CONTRACT_CREATION: nat := 53000
  const TX_DATA_ZERO_GAS: nat := 4
  const TX_DATA_NON_ZERO_GAS: nat := 68
  const TWO64: nat := 0x1_0000_0000_0000_0000

  type Address = nat
  type Byte = b: int | 0 <= b < 256

  // The state: balances, nonces and the refund counter

  datatype World = World(balances: map<Address, int>, nonces: map<Address, nat>, refund: nat) {
    function Balance(a: Address): int { if a in balances then balances[a] else 0 }
    function Nonce(a: Address): nat { if a in nonces then nonces[a] else 0 }
    function AddBalance(a: Address, x: int): World { this.(balances := balances[a := Balance(a) + x]) }
    function SetNonce(a: Address, n: nat): World { this.(nonces := nonces[a := n]) }
  }

  /** The sum of the balances of all addresses below `n`. */
  ghost function Total(w: World, n: nat): int {
    if n == 0 then 0 else Total(w, n - 1) + w.Balance(n - 1)
  }

  lemma {:induction false} TotalAdd(w: World, a: Address, x: int, n: nat)
    ensures Total(w.AddBalance(a, x), n) == Total(w, n) + if a < n then x else 0
  {
    if n > 0 { TotalAdd(w, a, x, n - 1); }
  }

  lemma {:induction false} TotalNonce(w: World, a: Address, nonce: nat, n: nat)
    ensures Total(w.SetNonce(a, nonce), n) == Total(w, n)
  {
    if n > 0 { TotalNonce(w, a, nonce, n - 1); }
  }

  // Messages, and the machine that runs them

  datatype Message = Message(from: Address, to: Option<Address>, nonce: nat, checkNonce: bool, gas: nat, gasPrice: nat,
                             value: nat, data: seq<Byte>)

  datatype VmError = NoError | InsufficientBalance | OtherVmError

  datatype Run = Run(world: World, gas: nat, err: VmError)

  /** The machine, as a function of the state, the message and the gas it is given. */
  type Machine = (World, Message, nat) -> Run

  /** The machine never gives back more gas than it was given. */
  ghost predicate Sound(vm: Machine) {
    forall w, msg, gas :: vm(w, msg, gas).gas <= gas
  }

  /** The machine moves balances but neither makes nor destroys them. */
  ghost predicate Conserves(vm: Machine, n: nat) {
    forall w, msg, gas :: Total(vm(w, msg, gas).world, n) == Total(w, n)
  }

  datatype Error = InvalidNonce | OutOfGas | InsufficientBalanceForGas | GasLimitReached | TransferFailed

  // Intrinsic gas

  function DataGas(data: seq<Byte>): (g: nat) {
    if data == [] then 0
    else DataGas(data[..|data| - 1]) + if data[|data| - 1] == 0 then TX_DATA_ZERO_GAS else TX_DATA_NON_ZERO_GAS
  }

  function Intrinsic(data: seq<Byte>, contractCreation: bool, homestead: bool): (g: nat) {
    (if contractCreation && homestead then TX_GAS_CONTRACT_CREATION else TX_GAS) + DataGas(data)
  }

  /** What the intrinsic gas is: 4 for every zero byte and 68 for every other, on top of the charge for a
      call or for a creation. */
  lemma IntrinsicCost(data: seq<Byte>, contractCreation: bool, homestead: bool)
    ensures var nonZero, zero := (set i | 0 <= i < |data| && data[i] != 0), (set i | 0 <= i < |data| && data[i] == 0);
            Intrinsic(data, contractCreation, homestead) ==
              (if contractCreation && homestead then 53000 else 21000) + 68 * |nonZero| + 4 * |zero|
  {
    DataCost(data, (set i | 0 <= i < |data| && data[i] != 0), (set i | 0 <= i < |data| && data[i] == 0));
  }

  lemma {:induction false} DataCost(data: seq<Byte>, nonZero: set<int>, zero: set<int>)
    requires nonZero == (set i | 0 <= i < |data| && data[i] != 0) && zero == set i | 0 <= i < |data| && data[i] == 0
    ensures DataGas(data) == 68 * |nonZero| + 4 * |zero|
  {
    if data == [] {
      assert nonZero == {} && zero == {};
    } else {
      var n := |data| - 1;
      var init := data[..n];
      var nonZero', zero' := (set i | 0 <= i < n && init[i] != 0), (set i | 0 <= i < n && init[i] == 0);
      DataCost(init, nonZero', zero');
      LastKind(data, init, nonZero, nonZero', zero, zero');
    }
  }

  lemma LastKind(data: seq<Byte>, init: seq<Byte>, nonZero: set<int>, nonZero': set<int>, zero: set<int>, zero': set<int>)
    requires data != [] && init == data[..|data| - 1]
    requires nonZero == (set i | 0 <= i < |data| && data[i] != 0) && zero == set i | 0 <= i < |data| && data[i] == 0
    requires nonZero' == (set i | 0 <= i < |init| && init[i] != 0) && zero' == set i | 0 <= i < |init| && init[i] == 0
    ensures |nonZero| == |nonZero'| + (if data[|data| - 1] != 0 then 1 else 0)
    ensures |zero| == |zero'| + if data[|data| - 1] == 0 then 1 else 0
  {
    var n := |data| - 1;
    if data[n] == 0 {
      assert nonZero == nonZero' && zero == zero' + {n};
    } else {
      assert zero == zero' && nonZero == nonZero' + {n};
    }
  }

  /** Charges every byte by its kind, counting one kind only. */
  method IntrinsicGas(data: seq<Byte>, contractCreation: bool, homestead: bool) returns (igas: nat)
    ensures igas == Intrinsic(data, contractCreation, homestead)
    ensures var nonZero, zero := (set i | 0 <= i < |data| && data[i] != 0), (set i | 0 <= i < |data| && data[i] == 0);
            igas == (if contractCreation && homestead then 53000 else 21000) + 68 * |nonZero| + 4 * |zero|
  {
    IntrinsicCost(data, contractCreation, homestead);
    igas := if contractCreation && homestead then TX_GAS_CONTRACT_CREATION else TX_GAS;
    if |data| > 0 {
      var nz := 0;
      for i := 0 to |data|
        invariant 0 <= nz <= i
        invariant DataGas(data[..i]) == nz * TX_DATA_NON_ZERO_GAS + (i - nz) * TX_DATA_ZERO_GAS
      {
        assert data[..i + 1][..i] == data[..i];
        if data[i] != 0 { nz := nz + 1; }
      }
      assert data[..|data|] == data;
      igas := igas + nz * TX_DATA_NON_ZERO_GAS;
      igas := igas + (|data| - nz) * TX_DATA_ZERO_GAS;
    }
  }

  // The pool

  /** The gas that is left for the messages of a block. */
  class GasPool {
    var available: int

    constructor (amount: int)
      ensures available == amount
    {
      available := amount;
    }

    method AddGas(amount: nat)
      modifies this
      ensures available == old(available) + amount
    {
      available := available + amount;
    }

    method SubGas(amount: nat) returns (ok: bool)
      modifies this
      ensures ok <==> amount <= old(available)
      ensures available == if ok then old(available) - amount else old(available)
    {
      if available < amount { return false; }
      available := available - amount;
      ok := true;
    }
  }

  // What a message does

  /** Whether a message can buy its gas, and if not, why. */
  function Affordable(w: World, msg: Message, pool: int): (e: Option<Error>) {
    if msg.checkNonce && w.Nonce(msg.from) != msg.nonce then Some(InvalidNonce)
    else if msg.gas >= TWO64 then Some(OutOfGas)
    else if w.Balance(msg.from) < msg.gas * msg.gasPrice then Some(InsufficientBalanceForGas)
    else if pool < msg.gas then Some(GasLimitReached)
    else None
  }

  /** Each refusal by its own condition, in the order of the checks. */
  lemma RefusedExactly(w: World, msg: Message, pool: int)
    ensures var e := Affordable(w, msg, pool);
            var nonce, balance := (if msg.from in w.nonces then w.nonces[msg.from] else 0), (if msg.from in w.balances then w.balances[msg.from] else 0);
            var wrongNonce, wide, poor := msg.checkNonce && nonce != msg.nonce, msg.gas >= 0x1_0000_0000_0000_0000, balance < msg.gas * msg.gasPrice;
            && (e == Some(InvalidNonce) <==> wrongNonce)
            && (e == Some(OutOfGas) <==> !wrongNonce && wide)
            && (e == Some(InsufficientBalanceForGas) <==> !wrongNonce && !wide && poor)
            && (e == Some(GasLimitReached) <==> !wrongNonce && !wide && !poor && pool < msg.gas)
            && (e == None <==> !wrongNonce && !wide && !poor && msg.gas <= pool)
            && e != Some(TransferFailed)
  {
  }

  /** The state in which the machine starts: gas is paid for, and a call has its nonce. */
  function Started(w: World, msg: Message): (w': World) {
    var paid := w.AddBalance(msg.from, -(msg.gas * msg.gasPrice));
    if msg.to.None? then paid else paid.SetNonce(msg.from, paid.Nonce(msg.from) + 1)
  }

  function Min(a: nat, b: nat): nat { if a < b then a else b }

  /** A message of which the machine left `left` gas, with `refund` counted for it, uses this much. */
  function Used(gas: nat, left: nat, refund: nat): (used: nat)
    requires left <= gas
    ensures used <= gas - left <= 2 * used && gas - left - used <= refund
  {
    gas - left - Min((gas - left) / 2, refund)
  }

  /** What becomes of the state that the machine leaves: the sender gets back what was not used, the
      coinbase gets what was. */
  function Settled(w: World, msg: Message, coinbase: Address, used: nat): (w': World)
    requires used <= msg.gas
  {
    w.AddBalance(msg.from, (msg.gas - used) * msg.gasPrice).AddBalance(coinbase, used * msg.gasPrice)
  }

  datatype Result = Ok(required: nat, used: nat) | Err(error: Error)

  /** The outcome of a message: what it returns, the state after it and what it leaves in the pool. */
  datatype Outcome = Outcome(result: Result, world: World, pool: int)

  /** How a message ends after the machine ran it, if `pool` is what it left in the pool at first. */
  ghost function Executed(run: Run, msg: Message, coinbase: Address, pool: int): (o: Outcome)
    requires run.gas <= msg.gas
  {
    if run.err == InsufficientBalance then Outcome(Err(TransferFailed), run.world, pool)
    else
      var used := Used(msg.gas, run.gas, run.world.refund);
      Outcome(Ok(msg.gas - run.gas, used), Settled(run.world, msg, coinbase, used), pool + msg.gas - used)
  }

  ghost function Transition(vm: Machine, w: World, pool: int, msg: Message, coinbase: Address, homestead: bool): (o: Outcome)
    requires Sound(vm)
  {
    var blocked := Affordable(w, msg, pool);
    var igas := Intrinsic(msg.data, msg.to.None?, homestead);
    if blocked.Some? then Outcome(Err(blocked.value), w, pool)
    else if msg.gas < igas then Outcome(Err(OutOfGas), w.AddBalance(msg.from, -(msg.gas * msg.gasPrice)), pool - msg.gas)
    else
      Executed(vm(Started(w, msg), msg, msg.gas - igas), msg, coinbase, pool - msg.gas)
  }

  lemma AddTwice(w: World, a: Address, x: int, y: int)
    ensures w.AddBalance(a, x).AddBalance(a, y) == w.AddBalance(a, x + y)
  {
    assert w.AddBalance(a, x).AddBalance(a, y).balances == w.AddBalance(a, x + y).balances;
  }

  lemma Distribute(a: int, b: int, p: int)
    ensures (a + b) * p == a * p + b * p
  {
  }

  class StateTransition {
    const gp: GasPool
    const msg: Message
    var gas: nat
    var initialGas: nat
    var state: World

    constructor (gp: GasPool, msg: Message, state: World)
      ensures this.gp == gp && this.msg == msg && this.state == state && gas == 0 && initialGas == 0
    {
      this.gp, this.msg, this.state, gas, initialGas := gp, msg, state, 0, 0;
    }

    method UseGas(amount: nat) returns (ok: bool)
      modifies this`gas
      ensures ok <==> amount <= old(gas)
      ensures gas == if ok then old(gas) - amount else old(gas)
    {
      if gas < amount { return false; }
      gas := gas - amount;
      ok := true;
    }

    method BuyGas() returns (e: Option<Error>)
      requires gas == 0
      modifies this, gp
      ensures e == Affordable(old(state), msg.(checkNonce := false), old(gp.available))
      ensures e.Some? ==> state == old(state) && gp.available == old(gp.available)
      ensures e.None? ==> gas == initialGas == msg.gas && gp.available == old(gp.available) - msg.gas
      ensures e.None? ==> state == old(state).AddBalance(msg.from, -(msg.gas * msg.gasPrice))
    {
      if msg.gas >= TWO64 { return Some(OutOfGas); }
      var mgval := msg.gas * msg.gasPrice;
      if state.Balance(msg.from) < mgval { return Some(InsufficientBalanceForGas); }
      var ok := gp.SubGas(msg.gas);
      if !ok { return Some(GasLimitReached); }
      gas := (gas + msg.gas) % TWO64;
      initialGas := msg.gas;
      state := state.AddBalance(msg.from, -mgval);
      e := None;
    }

    method PreCheck() returns (e: Option<Error>)
      requires gas == 0
      modifies this, gp
      ensures e == Affordable(old(state), msg, old(gp.available))
      ensures e.Some? ==> state == old(state) && gp.available == old(gp.available)
      ensures e.None? ==> gas == initialGas == msg.gas && gp.available == old(gp.available) - msg.gas
      ensures e.None? ==> state == old(state).AddBalance(msg.from, -(msg.gas * msg.gasPrice))
    {
      if msg.checkNonce && state.Nonce(msg.from) != msg.nonce { return Some(InvalidNonce); }
      e := BuyGas();
    }

    function GasUsed(): int
      reads this
    {
      initialGas - gas
    }

    /** Gives the sender back the gas that is left and up to half of the gas used, whichever of this
        the refund counter allows, and returns all of it to the pool. The gas never wraps around. */
    method RefundGas()
      requires gas <= initialGas < TWO64
      modifies this, gp
      ensures initialGas == old(initialGas)
      ensures GasUsed() == Used(initialGas, old(gas), old(state).refund)
      ensures state == old(state).AddBalance(msg.from, gas * msg.gasPrice)
      ensures gp.available == old(gp.available) + gas
    {
      var remaining := gas * msg.gasPrice;
      var w := state.AddBalance(msg.from, remaining);
      var refund := Min(GasUsed() / 2, w.refund);
      AddTwice(state, msg.from, remaining, refund * msg.gasPrice);
      Distribute(gas, refund, msg.gasPrice);
      gas := (gas + refund) % TWO64;
      state := w.AddBalance(msg.from, refund * msg.gasPrice);
      gp.AddGas(gas);
    }

    method TransitionDb(vm: Machine, coinbase: Address, homestead: bool) returns (r: Result)
      requires Sound(vm) && gas == 0
      modifies this, gp
      ensures Outcome(r, state, gp.available) == Transition(vm, old(state), old(gp.available), msg, coinbase, homestead)
    {
      ghost var w0 := state;
      var e := PreCheck();
      if e.Some? { return Err(e.value); }
      var igas := IntrinsicGas(msg.data, msg.to.None?, homestead);
      if igas >= TWO64 { return Err(OutOfGas); }
      var ok := UseGas(igas);
      if !ok { return Err(OutOfGas); }
      r := Execute(vm, coinbase);
    }

    /** Runs the message with the gas that is left after its intrinsic gas, and settles the account. */
    method Execute(vm: Machine, coinbase: Address) returns (r: Result)
      requires Sound(vm) && gas <= initialGas == msg.gas < TWO64
      modifies this, gp
      ensures Outcome(r, state, gp.available) ==
        Executed(vm(if msg.to.None? then old(state) else old(state).SetNonce(msg.from, old(state).Nonce(msg.from) + 1), msg, old(gas)),
                 msg, coinbase, old(gp.available))
    {
      var w := state;
      if msg.to.Some? { w := w.SetNonce(msg.from, w.Nonce(msg.from) + 1); }
      var run := vm(w, msg, gas);
      state, gas := run.world, run.gas;
      if run.err == InsufficientBalance { return Err(TransferFailed); }
      var required := GasUsed();
      RefundGas();
      state := state.AddBalance(coinbase, GasUsed() * msg.gasPrice);
      r := Ok(required, GasUsed());
    }
  }

  // Conservation, for one message

  ghost function MachineRun(vm: Machine, w: World, msg: Message, homestead: bool): (run: Run) {
    var igas := Intrinsic(msg.data, msg.to.None?, homestead);
    vm(Started(w, msg), msg, if igas <= msg.gas then msg.gas - igas else 0)
  }

  lemma StartedTotal(w: World, msg: Message, n: nat)
    requires msg.from < n
    ensures Total(Started(w, msg), n) == Total(w, n) - msg.gas * msg.gasPrice
  {
    var paid := w.AddBalance(msg.from, -(msg.gas * msg.gasPrice));
    TotalAdd(w, msg.from, -(msg.gas * msg.gasPrice), n);
    TotalNonce(paid, msg.from, paid.Nonce(msg.from) + 1, n);
  }

  lemma SettledTotal(w: World, msg: Message, coinbase: Address, used: nat, n: nat)
    requires msg.from < n && coinbase < n && used <= msg.gas
    ensures Total(Settled(w, msg, coinbase, used), n) == Total(w, n) + msg.gas * msg.gasPrice
  {
    var back := (msg.gas - used) * msg.gasPrice;
    TotalAdd(w, msg.from, back, n);
    TotalAdd(w.AddBalance(msg.from, back), coinbase, used * msg.gasPrice, n);
    Distribute(msg.gas - used, used, msg.gasPrice);
  }

  /** A message that succeeds changes the total of all balances by what the machine itself changed it
      by; it pays for at least its intrinsic gas before refunds, at most half of which come back; and
      the pool loses exactly what it used. */
  lemma SuccessConserves(vm: Machine, w: World, pool: int, msg: Message, coinbase: Address, homestead: bool, n: nat)
    requires Sound(vm) && msg.from < n && coinbase < n
    requires Transition(vm, w, pool, msg, coinbase, homestead).result.Ok?
    ensures var o, run := Transition(vm, w, pool, msg, coinbase, homestead), MachineRun(vm, w, msg, homestead);
            && Total(o.world, n) - Total(w, n) == Total(run.world, n) - Total(Started(w, msg), n)
            && o.pool == pool - o.result.used >= 0
            && Intrinsic(msg.data, msg.to.None?, homestead) <= o.result.required <= msg.gas < TWO64
            && o.result.used <= o.result.required <= 2 * o.result.used
  {
    StartedTotal(w, msg, n);
    var run := MachineRun(vm, w, msg, homestead);
    SettledTotal(run.world, msg, coinbase, Used(msg.gas, run.gas, run.world.refund), n);
  }

  /** What a message that succeeds does to each account: the sender pays for the gas before the machine
      runs and gets back what was not used, the coinbase gets what was, and everyone else has what the
      machine left them. A refund is counted up to half of the gas that was needed. */
  lemma SuccessPays(vm: Machine, w: World, pool: int, msg: Message, coinbase: Address, homestead: bool, a: Address)
    requires Sound(vm) && Transition(vm, w, pool, msg, coinbase, homestead).result.Ok?
    ensures var o, run := Transition(vm, w, pool, msg, coinbase, homestead), MachineRun(vm, w, msg, homestead);
            var left, after := (if a in run.world.balances then run.world.balances[a] else 0), (if a in o.world.balances then o.world.balances[a] else 0);
            && o.result.required == msg.gas - run.gas
            && o.result.used == o.result.required - (if o.result.required / 2 < run.world.refund then o.result.required / 2 else run.world.refund)
            && after == left + (if a == msg.from then (msg.gas - o.result.used) * msg.gasPrice else 0)
                             + (if a == coinbase then o.result.used * msg.gasPrice else 0)
            && o.world.nonces == run.world.nonces && o.world.refund == run.world.refund
  {
  }

  /** How the machine starts: with the gas that is left after the intrinsic gas, in a state in which the sender
      has paid for all of it, and with the sender's nonce raised for a call. */
  lemma MachineStarts(vm: Machine, w: World, msg: Message, homestead: bool, a: Address)
    requires Intrinsic(msg.data, msg.to.None?, homestead) <= msg.gas
    ensures var w' := Started(w, msg);
            && MachineRun(vm, w, msg, homestead) == vm(w', msg, msg.gas - Intrinsic(msg.data, msg.to.None?, homestead))
            && (if a in w'.balances then w'.balances[a] else 0) ==
                 (if a in w.balances then w.balances[a] else 0) - (if a == msg.from then msg.gas * msg.gasPrice else 0)
            && (if a in w'.nonces then w'.nonces[a] else 0) ==
                 (if a in w.nonces then w.nonces[a] else 0) + (if a == msg.from && msg.to.Some? then 1 else 0)
            && w'.refund == w.refund
  {
  }

  /** What a message that fails does to each account: nothing before it has bought its gas; after that it has
      paid for all of it, and has run only if the gas was enough for it to start. */
  lemma FailureCosts(vm: Machine, w: World, pool: int, msg: Message, coinbase: Address, homestead: bool, a: Address)
    requires Sound(vm) && Transition(vm, w, pool, msg, coinbase, homestead).result.Err?
    ensures var o, run := Transition(vm, w, pool, msg, coinbase, homestead), MachineRun(vm, w, msg, homestead);
            var blocked, short := Affordable(w, msg, pool), msg.gas < Intrinsic(msg.data, msg.to.None?, homestead);
            && (blocked.Some? ==> o == Outcome(Err(blocked.value), w, pool))
            && (blocked.None? ==> o.pool == pool - msg.gas)
            && (blocked.None? && short ==>
                  && o.result.error == OutOfGas && o.world.nonces == w.nonces && o.world.refund == w.refund
                  && (if a in o.world.balances then o.world.balances[a] else 0) ==
                       (if a in w.balances then w.balances[a] else 0) - (if a == msg.from then msg.gas * msg.gasPrice else 0))
            && (blocked.None? && !short ==> run.err == InsufficientBalance && o.result.error == TransferFailed && o.world == run.world)
  {
  }

  /** A message succeeds if and only if it can buy its gas, the gas is enough for it to start and the
      machine finds the value to transfer. */
  lemma SucceedsExactly(vm: Machine, w: World, pool: int, msg: Message, coinbase: Address, homestead: bool)
    requires Sound(vm)
    ensures Transition(vm, w, pool, msg, coinbase, homestead).result.Ok? <==>
            && Affordable(w, msg, pool).None? && Intrinsic(msg.data, msg.to.None?, homestead) <= msg.gas
            && MachineRun(vm, w, msg, homestead).err != InsufficientBalance
  {
  }

  /** A message that fails either changes nothing, or has paid for all its gas: nothing goes back to
      the sender or to the pool. */
  lemma FailurePays(vm: Machine, w: World, pool: int, msg: Message, coinbase: Address, homestead: bool, n: nat)
    requires Sound(vm) && Conserves(vm, n) && msg.from < n && coinbase < n
    requires Transition(vm, w, pool, msg, coinbase, homestead).result.Err?
    ensures var o := Transition(vm, w, pool, msg, coinbase, homestead);
            if Affordable(w, msg, pool).Some? then o.world == w && o.pool == pool
            else
              && Total(o.world, n) == Total(w, n) - msg.gas * msg.gasPrice
              && o.pool == pool - msg.gas >= 0
              && (o.result.error == OutOfGas <==> msg.gas < Intrinsic(msg.data, msg.to.None?, homestead))
  {
    StartedTotal(w, msg, n);
    TotalAdd(w, msg.from, -(msg.gas * msg.gasPrice), n);
  }

  // A block

  datatype Receipt = Receipt(cumulativeGasUsed: int, gasUsed: int)

  datatype Block = Block(gasLimit: nat, coinbase: Address, homestead: bool, txs: seq<Option<Message>>)

  /** What a message of a block used, the state after it and what it leaves in the pool. */
  datatype Applied = Applied(used: nat, world: World, pool: int)

  /** One message of a block; nothing if it has no valid signature or fails. The refund counter is
      cleared behind it. */
  ghost function Step(vm: Machine, b: Block, w: World, pool: int, tx: Option<Message>): (o: Option<Applied>)
    requires Sound(vm)
  {
    if tx.None? then None
    else
      var o := Transition(vm, w, pool, tx.value, b.coinbase, b.homestead);
      if o.result.Err? then None else Some(Applied(o.result.used, o.world.(refund := 0), o.pool))
  }

  type Stepper = (World, int, Option<Message>) -> Option<Applied>

  /** `step` is the application of one message, as a function of the state, the pool and the message. */
  ghost predicate IsStep(step: Stepper, vm: Machine, b: Block)
    requires Sound(vm)
  {
    forall w, pool, tx {:trigger Step(vm, b, w, pool, tx)} :: step(w, pool, tx) == Step(vm, b, w, pool, tx)
  }

  /** The first `k` messages of a block, one after the other. */
  ghost function After(step: Stepper, w: World, b: Block, k: nat): (o: Option<Applied>)
    requires k <= |b.txs|
  {
    if k == 0 then Some(Applied(0, w, b.gasLimit))
    else
      var prev := After(step, w, b, k - 1);
      if prev.None? then None else step(prev.value.world, prev.value.pool, b.txs[k - 1])
  }

  ghost predicate Known(b: Block, n: nat) {
    b.coinbase < n && forall i :: 0 <= i < |b.txs| && b.txs[i].Some? ==> b.txs[i].value.from < n
  }

  /** The messages of a block move balances but keep their total, and never overdraw the pool. */
  lemma {:induction false} BlockConserves(step: Stepper, vm: Machine, w: World, b: Block, k: nat, n: nat)
    requires Sound(vm) && IsStep(step, vm, b) && Conserves(vm, n) && k <= |b.txs| && Known(b, n)
    requires After(step, w, b, k).Some?
    ensures Total(After(step, w, b, k).value.world, n) == Total(w, n)
    ensures 0 <= After(step, w, b, k).value.pool <= b.gasLimit
  {
    if k > 0 {
      BlockConserves(step, vm, w, b, k - 1, n);
      var prev := After(step, w, b, k - 1).value;
      assert After(step, w, b, k) == Step(vm, b, prev.world, prev.pool, b.txs[k - 1]);
      var msg := b.txs[k - 1].value;
      SuccessConserves(vm, prev.world, prev.pool, msg, b.coinbase, b.homestead, n);
      TotalRefund(Transition(vm, prev.world, prev.pool, msg, b.coinbase, b.homestead).world, n);
    }
  }

  /** The messages of a block run one after the other: each starts in the state and with the pool that the
      one before it left, and the refund counter is cleared between them. The block fails exactly if one of
      them has no valid signature or fails. */
  lemma BlockRuns(step: Stepper, vm: Machine, w: World, b: Block, k: nat)
    requires Sound(vm) && IsStep(step, vm, b) && k < |b.txs|
    ensures After(step, w, b, 0) == Some(Applied(0, w, b.gasLimit))
    ensures After(step, w, b, k).None? ==> After(step, w, b, k + 1).None?
    ensures After(step, w, b, k).Some? && b.txs[k].None? ==> After(step, w, b, k + 1).None?
    ensures After(step, w, b, k).Some? && b.txs[k].Some? ==>
              var prev, next := After(step, w, b, k).value, After(step, w, b, k + 1);
              var o := Transition(vm, prev.world, prev.pool, b.txs[k].value, b.coinbase, b.homestead);
              if o.result.Err? then next.None?
              else
                && next.Some? && next.value.used == o.result.used && next.value.pool == o.pool
                && next.value.world.balances == o.world.balances && next.value.world.nonces == o.world.nonces && next.value.world.refund == 0
  {
    var prev := After(step, w, b, k);
    if prev.Some? {
      assert step(prev.value.world, prev.value.pool, b.txs[k]) == Step(vm, b, prev.value.world, prev.value.pool, b.txs[k]);
    }
  }

  lemma {:induction false} TotalRefund(w: World, n: nat)
    ensures Total(w.(refund := 0), n) == Total(w, n)
  {
    if n > 0 { TotalRefund(w, n - 1); }
  }

  /** Each receipt's cumulative gas is that of the one before it and its own. */
  ghost predicate Cumulative(rs: seq<Receipt>) {
    forall j :: 0 <= j < |rs| ==> rs[j].cumulativeGasUsed == rs[j].gasUsed + Before(rs, j)
  }

  /** The cumulative gas before a receipt. */
  function Before(rs: seq<Receipt>, j: nat): (g: int)
    requires j <= |rs|
  {
    if j == 0 then 0 else rs[j - 1].cumulativeGasUsed
  }

  lemma AppendReceipt(rs: seq<Receipt>, r: Receipt)
    requires Cumulative(rs) && r.cumulativeGasUsed == r.gasUsed + Before(rs, |rs|)
    ensures Cumulative(rs + [r]) && Before(rs + [r], |rs| + 1) == r.cumulativeGasUsed
  {
    forall j | 0 <= j < |rs| + 1
      ensures (rs + [r])[j].cumulativeGasUsed == (rs + [r])[j].gasUsed + Before(rs + [r], j)
    {
      assert Before(rs + [r], j) == Before(rs, j);
    }
  }

  ghost predicate RecordedAt(step: Stepper, w: World, b: Block, r: Receipt, k: nat)
    requires k < |b.txs|
  {
    After(step, w, b, k + 1).Some? && r.gasUsed == After(step, w, b, k + 1).value.used
  }

  /** Receipts hold the gas that each message used. */
  ghost predicate Recorded(step: Stepper, w: World, b: Block, rs: seq<Receipt>)
    requires |rs| <= |b.txs|
  {
    forall k :: 0 <= k < |rs| ==> RecordedAt(step, w, b, rs[k], k)
  }

  method ApplyTransaction(ghost step: Stepper, vm: Machine, b: Block, gp: GasPool, w: World, tx: Option<Message>, usedGas: nat)
    returns (receipt: Option<Receipt>, w': World, usedGas': nat)
    requires Sound(vm) && IsStep(step, vm, b)
    modifies gp
    ensures receipt.Some? <==> step(w, old(gp.available), tx).Some?
    ensures receipt.Some? ==>
      var o := step(w, old(gp.available), tx).value;
      && gp.available == o.pool == old(gp.available) - o.used
      && w' == o.world
      && usedGas' == usedGas + o.used
      && receipt.value == Receipt(usedGas', o.used)
  {
    assert step(w, gp.available, tx) == Step(vm, b, w, gp.available, tx);
    receipt, w', usedGas' := None, w, usedGas;
    if tx.None? { return; }
    var st := new StateTransition(gp, tx.value, w);
    var r := st.TransitionDb(vm, b.coinbase, b.homestead);
    w' := st.state;
    if r.Err? { return; }
    usedGas' := usedGas + r.used;
    w' := w'.(refund := 0);
    receipt := Some(Receipt(usedGas', r.used));
  }

  /** Processes a block: what is used and what is left of the pool add up to the gas limit. */
  method Process(ghost step: Stepper, vm: Machine, w0: World, b: Block)
    returns (receipts: Option<seq<Receipt>>, w: World, totalUsedGas: nat, left: int)
    requires Sound(vm) && IsStep(step, vm, b)
    ensures receipts.Some? <==> After(step, w0, b, |b.txs|).Some?
    ensures receipts.Some? ==> w == After(step, w0, b, |b.txs|).value.world && left == After(step, w0, b, |b.txs|).value.pool
    ensures receipts.Some? ==> totalUsedGas + left == b.gasLimit
    ensures receipts.Some? ==>
      |receipts.value| == |b.txs| && Cumulative(receipts.value) && totalUsedGas == Before(receipts.value, |b.txs|)
    ensures receipts.Some? ==> Recorded(step, w0, b, receipts.value)
  {
    var gp := new GasPool(b.gasLimit);
    var rs: seq<Receipt> := [];
    w, totalUsedGas := w0, 0;
    for i := 0 to |b.txs|
      invariant fresh(gp) && Processed(step, w0, b, i, w, gp.available, totalUsedGas, rs)
    {
      var receipt, w', used := ApplyTransaction(step, vm, b, gp, w, b.txs[i], totalUsedGas);
      if receipt.None? {
        AfterStops(step, w0, b, i + 1, |b.txs|);
        return None, w', used, gp.available;
      }
      ProcessedNext(step, w0, b, i, w, b.gasLimit - totalUsedGas, totalUsedGas, rs, receipt.value);
      w, totalUsedGas, rs := w', used, rs + [receipt.value];
    }
    receipts, left := Some(rs), gp.available;
  }

  /** Where a block is after its first `i` messages. */
  ghost predicate Processed(step: Stepper, w0: World, b: Block, i: nat, w: World, pool: int, used: nat, rs: seq<Receipt>) {
    && i == |rs| <= |b.txs| && Cumulative(rs) && used == Before(rs, i) && Recorded(step, w0, b, rs)
    && After(step, w0, b, i).Some? && w == After(step, w0, b, i).value.world
    && pool == After(step, w0, b, i).value.pool == b.gasLimit - used
  }

  lemma ProcessedNext(step: Stepper, w0: World, b: Block, i: nat, w: World, pool: int, used: nat, rs: seq<Receipt>, r: Receipt)
    requires i < |b.txs| && Processed(step, w0, b, i, w, pool, used, rs)
    requires step(w, pool, b.txs[i]).Some?
    requires var o := step(w, pool, b.txs[i]).value; o.pool == pool - o.used && r == Receipt(used + o.used, o.used)
    ensures var o := step(w, pool, b.txs[i]).value;
            Processed(step, w0, b, i + 1, o.world, o.pool, used + o.used, rs + [r])
  {
    AppendReceipt(rs, r);
    assert After(step, w0, b, i + 1) == step(w, pool, b.txs[i]);
    assert RecordedAt(step, w0, b, r, i);
  }

  lemma {:induction false} AfterStops(step: Stepper, w: World, b: Block, i: nat, k: nat)
    requires i <= k <= |b.txs| && After(step, w, b, i).None?
    ensures After(step, w, b, k).None?
  {
    if i < k { AfterStops(step, w, b, i, k - 1); }
  }

  // Receipts read back from their consensus fields

  function Derived(rs: seq<Receipt>, j: nat): (r: Receipt)
    requires j < |rs|
  {
    rs[j].(gasUsed := rs[j].cumulativeGasUsed - Before(rs, j))
  }

  /** Recomputes in place the gas used by each transaction. */
  method SetReceiptsData(receipts: array<Receipt>)
    modifies receipts
    ensures forall j :: 0 <= j < receipts.Length ==> receipts[j] == Derived(old(receipts[..]), j)
    ensures Cumulative(receipts[..])
    ensures Cumulative(old(receipts[..])) ==> receipts[..] == old(receipts[..])
  {
    ghost var was := receipts[..];
    for j := 0 to receipts.Length
      invariant forall i :: 0 <= i < j ==> receipts[i] == Derived(was, i)
      invariant forall i :: j <= i < receipts.Length ==> receipts[i] == was[i]
    {
      var used := receipts[j].cumulativeGasUsed;
      if j > 0 { used := used - receipts[j - 1].cumulativeGasUsed; }
      receipts[j] := receipts[j].(gasUsed := used);
    }
  }
}
