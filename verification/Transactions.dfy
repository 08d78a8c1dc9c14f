/** Transactions as the pools see them. */
module Transactions {
  import opened Options
  import opened Ancestry

  type Address = nat

  /** A signed transaction. Its sender is a function of it, and its hash identifies it. */
  datatype Tx = Tx(hash: Hash, sender: Address, nonce: uint64, price: nat, gas: uint64, value: nat) {
    /** value + price * gas */
    function Cost(): (c: nat)
      ensures value <= c
    {
      price * gas + value
    }
  }

  ghost function Hashes(txs: seq<Tx>): set<Hash> {
    set tx <- txs :: tx.hash
  }
}
