/**
 * The per-wallet decision inside `sweep`: the transfer costs
 * 21000 * gasPrice; a wallet is swept only when its balance is strictly
 * greater, and the transaction forwards the balance minus that cost.
 */
module SweepDecision {
  import opened Wrappers
  import opened Networks
  import Wallets

  /** `transferGasCost`: the gas a plain value transfer uses. */
  const TransferGasCost: nat := 21000

  /** The transaction request the sweep hands to `sendTransaction`. */
  datatype TxRequest = TxRequest(
    to: string,
    from: Wallets.Address,
    gasLimit: nat,
    gasPrice: nat,
    value: nat,
    chainId: nat)

  /** `transferGasCost.mul(gasPrice)`. */
  function TransferCost(gasPrice: nat): (r: nat)
    ensures r == 0 <==> gasPrice == 0
    ensures gasPrice > 0 ==> r >= TransferGasCost
  {
    TransferGasCost * gasPrice
  }

  /** Whether to sweep a wallet holding `balance`, and the transaction if so. */
  function Decide(balance: nat, gasPrice: nat, destination: string, from: Wallets.Address,
                  network: Network): (r: Option<TxRequest>)
    ensures r.Some? <==> balance > TransferGasCost * gasPrice
    ensures r.Some? ==>
              && r.value.value + TransferGasCost * gasPrice == balance
              && r.value.value > 0
              && r.value.gasLimit == TransferGasCost
              && r.value.gasPrice == gasPrice
              && r.value.to == destination
              && r.value.from == from
              && r.value.chainId == ChainId(network)
  {
    var transferCost := TransferCost(gasPrice);
    if balance > transferCost then
      Some(TxRequest(
        to := destination,
        from := from,
        gasLimit := TransferGasCost,
        gasPrice := gasPrice,
        value := balance - transferCost,
        chainId := ChainId(network)))
    else None
  }

  /** A balance equal to the transfer cost is left untouched (the comparison is strict). */
  lemma EqualBalanceIsNotSwept(gasPrice: nat, destination: string, from: Wallets.Address, network: Network)
    ensures Decide(TransferGasCost * gasPrice, gasPrice, destination, from, network).None?
  {
  }

  /**
   * An estimate of 0 is not a guard: any positive balance is swept whole,
   * in a transaction offering a gas price of 0.
   */
  lemma ZeroPriceSweepsWholeBalance(balance: nat, destination: string, from: Wallets.Address, network: Network)
    requires balance > 0
    ensures Decide(balance, 0, destination, from, network).Some?
    ensures Decide(balance, 0, destination, from, network).value.value == balance
    ensures Decide(balance, 0, destination, from, network).value.gasPrice == 0
  {
  }

  /** A wallet worth sweeping at some price is worth sweeping at any lower price, for a larger value. */
  lemma CheaperPriceStillSweeps(balance: nat, low: nat, high: nat, destination: string,
                                from: Wallets.Address, network: Network)
    requires low <= high
    requires Decide(balance, high, destination, from, network).Some?
    ensures Decide(balance, low, destination, from, network).Some?
    ensures Decide(balance, low, destination, from, network).value.value
            >= Decide(balance, high, destination, from, network).value.value
  {
    assert TransferGasCost * low <= TransferGasCost * high;
  }

  /**
   * At 10 per unit of gas the transfer costs 210000: a balance of 100000 is
   * dust, a balance of 1000000 forwards 790000.
   */
  lemma ExampleDustAndSweep(destination: string, from: Wallets.Address, network: Network)
    ensures Decide(100000, 10, destination, from, network).None?
    ensures Decide(1000000, 10, destination, from, network).Some?
    ensures Decide(1000000, 10, destination, from, network).value.value == 790000
  {
  }
}
