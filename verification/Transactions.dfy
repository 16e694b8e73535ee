/** Transactions and the messages they become. */
module Transactions {
  import opened Basics
  import opened World
  import opened Transitions

  /** `sender` stands for the address derived from the sender's public key. */
  datatype Transaction = Transaction(nonce: uint64, sender: Address, to: Option<Address>, amount: uint64,
                                     gasPrice: uint64, gasLimit: uint64, data: seq<byte>)

  /** The message ignores the transaction's own gas limit and price. */
  function AsMsg(tx: Transaction): Msg {
    Msg(tx.sender, tx.to, tx.nonce, tx.amount, 10_000_000, 1, tx.data, true)
  }
}
