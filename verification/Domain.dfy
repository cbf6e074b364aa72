/** The identities, amounts and Kafka events shared by the services.

    Money is an exact integer number of the smallest stored unit (1e-18, the scale of the NUMERIC
    columns); gateway amounts are multiples of 1e-8 of a coin. Identifiers are numbers. */
module Domain {

  datatype Option<+T> = None | Some(value: T)

  datatype Chain = Ethereum | Solana
  datatype Currency = ETH | SOL | USDC | USDT

  type UserId = nat
  type BetId = nat
  type WithdrawalId = nat
  type DepositId = nat
  type TxHash = nat

  // A wallet row, and the suffix of the three Redis keys that belong to it.
  datatype Wallet = Wallet(user: UserId, chain: Chain, currency: Currency)

  datatype BetEvent = BetEvent(id: BetId, wallet: Wallet, wager: int, payout: int, result: int, nonce: int)
  datatype DepositEvent = DepositEvent(id: DepositId, wallet: Wallet, amount: int, tx: TxHash, block: nat)
  datatype WithdrawalEvent = WithdrawalEvent(id: WithdrawalId, wallet: Wallet, amount: int, tx: TxHash)

  function Max(a: int, b: int): int { if a < b then b else a }

  function Min(a: int, b: int): int { if a < b then a else b }

  // 1e-8 of a coin, counted in units of 1e-18.
  const GATEWAY_UNIT: int := 10_000_000_000
}
