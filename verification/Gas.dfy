/** Gas of one state transition: bought from the block's pool, spent, refunded and given back. */
module Gas {
  import opened Options
  import opened Ancestry

  const MAX_UINT64: int := TWO_64 - 1

  const TX_GAS := 21000
  const TX_GAS_CONTRACT_CREATION := 53000
  const TX_DATA_ZERO_GAS := 4
  const TX_DATA_NON_ZERO_GAS := 68

  type byte = b: int | 0 <= b < 256

  function NonZero(data: seq<byte>): (n: nat)
    ensures n <= |data|
  {
    if data == [] then 0 else NonZero(data[..|data| - 1]) + (if data[|data| - 1] != 0 then 1 else 0)
  }

  /** NonZero is the number of positions that hold a byte other than zero. */
  lemma {:induction false} NonZeroCounts(data: seq<byte>)
    ensures NonZero(data) == |set i | 0 <= i < |data| && data[i] != 0|
  {
    var last := |data| - 1;
    if data != [] {
      NonZeroCounts(data[..last]);
      var before := set i | 0 <= i < |data[..last]| && data[..last][i] != 0;
      var all := set i | 0 <= i < |data| && data[i] != 0;
      assert all == if data[last] != 0 then before + {last} else before;
    }
  }

  /** The price of a message in unbounded integers. */
  function Intrinsic(data: seq<byte>, creation: bool): nat {
    (if creation then TX_GAS_CONTRACT_CREATION else TX_GAS)
    + TX_DATA_NON_ZERO_GAS * NonZero(data) + TX_DATA_ZERO_GAS * (|data| - NonZero(data))
  }

  /** The price list: 53000 to create a contract and 21000 to call, 4 for each zero byte and 68 for
      each other one, whatever their order. */
  lemma PriceOfByte(data: seq<byte>, b: byte, creation: bool)
    ensures Intrinsic([], creation) == if creation then 53000 else 21000
    ensures Intrinsic(data + [b], creation) == Intrinsic(data, creation) + (if b == 0 then 4 else 68)
  {
    assert (data + [b])[..|data|] == data;
  }

  lemma PriceInNumbers(data: seq<byte>, creation: bool)
    ensures var nonZero := |set i | 0 <= i < |data| && data[i] != 0|;
            Intrinsic(data, creation) == (if creation then 53000 else 21000) + 68 * nonZero + 4 * (|data| - nonZero)
  {
    NonZeroCounts(data);
  }

  /** A quotient check before a product is exact. */
  lemma QuotientCheck(room: nat, price: nat, count: nat)
    requires price > 0
    ensures room / price < count <==> room < count * price
  {
    if room / price < count {
      assert (room / price + 1) * price <= count * price;
    } else {
      assert count * price <= room / price * price;
    }
  }

  /** IntrinsicGas: the exact price if it fits 64 bits, and out of gas otherwise. */
  method IntrinsicGas(data: seq<byte>, creation: bool) returns (r: Option<uint64>)
    ensures r.Some? <==> Intrinsic(data, creation) < 0x1_0000_0000_0000_0000
    ensures r.Some? ==> r.value == Intrinsic(data, creation)
  {
    var gas: uint64 := if creation then TX_GAS_CONTRACT_CREATION else TX_GAS;
    if |data| > 0 {
      var nz := 0;
      for i := 0 to |data|
        invariant nz == NonZero(data[..i])
      {
        assert data[..i + 1][..i] == data[..i];
        if data[i] != 0 {
          nz := nz + 1;
        }
      }
      assert data[..|data|] == data;
      QuotientCheck(MAX_UINT64 - gas, TX_DATA_NON_ZERO_GAS, nz);
      if (MAX_UINT64 - gas) / TX_DATA_NON_ZERO_GAS < nz {
        return None;
      }
      gas := gas + nz * TX_DATA_NON_ZERO_GAS;
      var z := |data| - nz;
      QuotientCheck(MAX_UINT64 - gas, TX_DATA_ZERO_GAS, z);
      if (MAX_UINT64 - gas) / TX_DATA_ZERO_GAS < z {
        return None;
      }
      gas := gas + z * TX_DATA_ZERO_GAS;
    }
    r := Some(gas);
  }

  class GasPool {
    var gas: uint64

    constructor (gas: uint64)
      ensures this.gas == gas
    {
      this.gas := gas;
    }

    /** AddGas; failing stands for the panic on overflow. */
    method AddGas(amount: uint64) returns (ok: bool)
      modifies this
      ensures ok <==> old(gas) + amount <= MAX_UINT64
      ensures gas == if ok then old(gas) + amount else old(gas)
    {
      if gas > MAX_UINT64 - amount {
        return false;
      }
      gas := gas + amount;
      ok := true;
    }

    method SubGas(amount: uint64) returns (ok: bool)
      modifies this
      ensures ok <==> amount <= old(gas)
      ensures gas == if ok then old(gas) - amount else old(gas)
    {
      if gas < amount {
        return false;
      }
      gas := gas - amount;
      ok := true;
    }
  }

  /** What the virtual machine does with the gas it is given. */
  datatype Run = Ran(left: uint64, failed: bool) | Insufficient(left: uint64)

  /** The parts of a message and its environment the gas accounting depends on: the deployment
      permission is asked for a creation only, the contract firewall for a call only. */
  datatype Message = Message(data: seq<byte>, creation: bool, mayDeploy: bool, firewalled: bool, run: Run,
                             refund: uint64) {
    predicate Refused() { !creation && firewalled }
  }

  datatype Outcome = OutOfPool | OutOfGas | NotPermitted | NoBalance | Panic | Done(used: uint64, failed: bool)

  /** The gas taken by intrinsic costs and execution, before any refund: a call the firewall refuses
      pays the intrinsic price only. */
  function Consumed(msg: Message, limit: uint64): int {
    if !msg.creation && msg.firewalled then Intrinsic(msg.data, msg.creation) else limit - msg.run.left
  }

  /** How a transition ends. The first obstacle decides: the pool, the intrinsic price, the deployment
      permission, then a virtual machine that reports an insufficient balance. */
  ghost predicate EndsRight(msg: Message, limit: uint64, pool: uint64, r: Outcome) {
    var price := Intrinsic(msg.data, msg.creation);
    var refused := !msg.creation && msg.firewalled;
    && (r.OutOfPool? <==> pool < limit)
    && (r.OutOfGas? <==> limit <= pool && limit < price)
    && (r.NotPermitted? <==> price <= limit <= pool && msg.creation && !msg.mayDeploy)
    && (r.NoBalance? <==>
         price <= limit <= pool && (msg.creation ==> msg.mayDeploy) && !refused && msg.run.Insufficient?)
    && !r.Panic?
    && (r.Done? ==> (r.failed <==> refused || (msg.run.Ran? && msg.run.failed)))
  }

  /** Exactly the transitions that meet no obstacle are done. */
  lemma DoneIff(msg: Message, limit: uint64, pool: uint64, r: Outcome)
    requires EndsRight(msg, limit, pool, r)
    ensures r.Done? <==>
            && limit <= pool && Intrinsic(msg.data, msg.creation) <= limit
            && (if msg.creation then msg.mayDeploy && msg.run.Ran? else msg.firewalled || msg.run.Ran?)
    ensures r.Done? && !msg.creation && msg.firewalled ==> r.failed
    ensures r.Done? && !r.failed ==> msg.run == Ran(msg.run.left, false)
  {
    hide Intrinsic;
  }

  class StateTransition {
    const gp: GasPool
    var gas: uint64
    var initialGas: uint64

    constructor (gp: GasPool)
      ensures this.gp == gp && gas == 0 && initialGas == 0
    {
      this.gp := gp;
      gas, initialGas := 0, 0;
    }

    method BuyGas(limit: uint64) returns (ok: bool)
      requires gas == 0
      modifies this, gp
      ensures ok <==> limit <= old(gp.gas)
      ensures ok ==> gp.gas == old(gp.gas) - limit && gas == initialGas == limit
      ensures !ok ==> gp.gas == old(gp.gas) && gas == 0
    {
      ok := gp.SubGas(limit);
      if ok {
        gas := gas + limit;
        initialGas := limit;
      }
    }

    method UseGas(amount: uint64) returns (ok: bool)
      modifies `gas
      ensures ok <==> amount <= old(gas)
      ensures gas == if ok then old(gas) - amount else old(gas)
    {
      ok := amount <= gas;
      if ok { gas := gas - amount; }
    }

    /** refundGas: at most half of what was consumed comes back, then all that is left returns to the
        pool. */
    method RefundGas(refundCounter: uint64) returns (ok: bool)
      requires gas <= initialGas && gp.gas + initialGas <= MAX_UINT64
      modifies `gas, gp
      ensures ok && gas <= initialGas
      ensures gas - old(gas) <= refundCounter && 2 * (gas - old(gas)) <= initialGas - old(gas)
      ensures gas - old(gas) == refundCounter || initialGas - old(gas) <= 2 * (gas - old(gas)) + 1
      ensures gp.gas == old(gp.gas) + gas
    {
      var refund := (initialGas - gas) / 2;
      if refund > refundCounter { refund := refundCounter; }
      gas := gas + refund;
      ok := gp.AddGas(gas);
    }

    /** TransitionDb on the path that buys the configured gas limit. */
    method TransitionDb(msg: Message, limit: uint64) returns (r: Outcome)
      requires gas == 0
      requires Intrinsic(msg.data, msg.creation) <= limit ==> msg.run.left <= limit - Intrinsic(msg.data, msg.creation)
      modifies this, gp
      ensures EndsRight(msg, limit, old(gp.gas), r)
      ensures r.Done? ==> gp.gas + r.used == old(gp.gas)
      ensures r.Done? && msg.refund <= Consumed(msg, limit) / 2 ==> r.used == Consumed(msg, limit) - msg.refund
      ensures r.Done? && msg.refund > Consumed(msg, limit) / 2 ==> r.used == (Consumed(msg, limit) + 1) / 2
      ensures r.Done? ==> 2 * r.used >= Consumed(msg, limit) >= Intrinsic(msg.data, msg.creation)
      ensures r.OutOfPool? ==> gp.gas == old(gp.gas)
      ensures !r.OutOfPool? && !r.Done? ==> gp.gas + limit == old(gp.gas)
    {
      var ok := BuyGas(limit);
      if !ok { return OutOfPool; }
      var intrinsic := IntrinsicGas(msg.data, msg.creation);
      if intrinsic.None? { return OutOfGas; }
      ok := UseGas(intrinsic.value);
      if !ok { return OutOfGas; }
      if msg.creation && !msg.mayDeploy { return NotPermitted; }
      var failed := true;
      if !msg.Refused() {
        gas := msg.run.left;
        if msg.run.Insufficient? { return NoBalance; }
        failed := msg.run.failed;
      }
      ok := RefundGas(msg.refund);
      if !ok { return Panic; }
      r := Done(initialGas - gas, failed);
    }
  }
}
