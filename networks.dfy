/**
 * The supported networks and their chain identifiers (the `Networks` enum
 * and the `ChainIds` record).
 */
module Networks {

  datatype Network = Mainnet | Rinkeby | Kovan | Ropsten | Goerli

  /** `Object.values(Networks)`: the enum's members in declaration order. */
  const NetworkValues: seq<Network> := [Mainnet, Rinkeby, Kovan, Ropsten, Goerli]

  /** The string value of each enum member. */
  function Name(n: Network): string
  {
    match n
    case Mainnet => "mainnet"
    case Rinkeby => "rinkeby"
    case Kovan => "kovan"
    case Ropsten => "ropsten"
    case Goerli => "goerli"
  }

  /** The `ChainIds` table. */
  function ChainId(n: Network): (id: nat)
    ensures id > 0
    ensures n == Mainnet <==> id == 1
  {
    match n
    case Mainnet => 1
    case Rinkeby => 4
    case Kovan => 42
    case Ropsten => 3
    case Goerli => 5
  }

  /** `networkValues.filter((network) => network !== Networks.mainnet)`. */
  function WithoutMainnet(ns: seq<Network>): (r: seq<Network>)
    ensures forall n :: n in r <==> n in ns && n != Mainnet
    ensures |r| <= |ns|
  {
    if ns == [] then []
    else if ns[0] != Mainnet then [ns[0]] + WithoutMainnet(ns[1..])
    else WithoutMainnet(ns[1..])
  }

  /** The networks swept and refreshed on the interval timers. */
  function Testnets(): seq<Network>
  {
    WithoutMainnet(NetworkValues)
  }

  /** Every network appears exactly once in `NetworkValues`. */
  lemma NetworkValuesEnumerateAll(n: Network)
    ensures n in NetworkValues
    ensures forall i, j :: 0 <= i < j < |NetworkValues| ==> NetworkValues[i] != NetworkValues[j]
  {
  }

  /** The interval timers cover the four test networks, in enum order, and never mainnet. */
  lemma TestnetsAreAllButMainnet()
    ensures Testnets() == [Rinkeby, Kovan, Ropsten, Goerli]
    ensures Mainnet !in Testnets()
    ensures forall n :: n in Testnets() <==> n != Mainnet
  {
    assert NetworkValues[1..] == [Rinkeby, Kovan, Ropsten, Goerli];
  }

  /** Distinct networks have distinct chain identifiers and distinct names. */
  lemma ChainIdsDistinct(a: Network, b: Network)
    ensures ChainId(a) == ChainId(b) ==> a == b
    ensures Name(a) == Name(b) ==> a == b
  {
  }
}
