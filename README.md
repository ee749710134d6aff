# simple-sweeper, modelled in Dafny

This project models the sweep-and-fee engine of simple-sweeper
(`src/index.ts`). The program derives a fixed number of HD wallets per
Ethereum network from one mnemonic. It estimates a gas price per network
from recent blocks, keeps those estimates in a module-level cache, and
forwards every wallet balance above the transfer cost to one destination
address.

Modules, one per component of `src/index.ts`:

- `Networks` (`networks.dfy`): the `Networks` enum, the `ChainIds` table and the test-network filter.
- `Environment` (`environment.dfy`): `checkEnvironment`. The environment is a `map<string, string>`; a missing key is `undefined`.
- `Wallets` (`wallets.dfy`): `getWallets` as a method with nested loops. BIP-44 path rendering `m/44'/60'/0'/0/j` and its inverse. Key derivation is a parameter `derive(mnemonic, path)`.
- `FeeEstimator` (`fee_estimator.dfy`): the block-average branch of `estimateGasPrice`, as pure functions with lemmas.
- `SweepDecision` (`sweep_decision.dfy`): the cost and value arithmetic and the transaction fields of one sweep.
- `SweepPass` (`sweep_pass.dfy`): the specification of one pass of `sweep`. The chain's answer at wallet index `i` is `rpc(i)`.
- `Engine` (`engine.dfy`): the class `Sweeper`. It holds the `gasPriceEstimates` cache as a `map` field and has methods for `sweep`, `handleBlock`, the interval callbacks and `main`'s start-up. The module also states three lemmas about sequences of cache-writing events (`MainnetLockedOut`, `TestnetEntryIsLastRefresh`, `NonLandingEventsKeepTestnet`) and one example of a late refresh (`LateLandingRestoresMainnet`).
- `Wrappers` (`wrappers.dfy`): `Option`. `None` stands for `undefined`.

Small helpers without a contract are covered by the rows of the members that use them. These are `Networks.Name` (the enum's string values), `Networks.Testnets` (the `testnets` filter), `Environment.IsSet` (`Boolean(process.env[cur])`) and `SweepPass.WalletAt` (`wallets[network][i]`).

All arithmetic is BigNumber arithmetic on non-negative values. It is exact, so `nat` with Dafny's `/` matches it.

Behaviours of the code worth noting:

- A failed estimation writes `undefined` into the cache. The previous estimate is not kept.
- An estimate of 0 does not block sweeping. `handleBlock` tests a BigNumber, which is an object and always truthy. A zero price makes the cost 0, so any positive balance is swept whole.
- A failure while sweeping one wallet ends the whole pass, because the only `try/catch` wraps the loop.
- An environment variable set to the empty string makes the check throw, but the error does not list it.

## Model

| member | source | states |
|---|---|---|
| `Networks.NetworkValuesEnumerateAll` | src/index.ts:10-16 | `Object.values(Networks)` lists every network exactly once, in declaration order |
| `Networks.ChainIdsDistinct` | src/index.ts:18-24 | the `ChainIds` table and the enum's names are injective |
| `Networks.ChainId` | src/index.ts:18-24 | every chain id is positive, and it is 1 exactly for mainnet |
| `Networks.WithoutMainnet` | src/index.ts:162 | the filter keeps exactly the networks other than mainnet |
| `Networks.TestnetsAreAllButMainnet` | src/index.ts:162 | the interval timers cover rinkeby, kovan, ropsten and goerli in that order, and never mainnet |
| `Environment.AllSetFold` | src/index.ts:41 | the `Boolean(...)` reduction can only stay true if it started true, and a single undefined or empty name makes it false |
| `Environment.MissingFold` | src/index.ts:44 | the `=== undefined` reduction keeps its accumulator as a prefix and adds at most one entry per name |
| `Environment.CheckVariables` | src/index.ts:41-46 | passing means every name is defined and non-empty; a thrown list names only required names that are undefined |
| `Environment.CheckEnvironment` | src/index.ts:29-47 | the same for the nine `requiredVars`: passing means all nine are set, and every reported name is one of them and undefined |
| `Environment.Undefined` | src/index.ts:44 | reference definition of the report: a name is in it iff it is required and undefined |
| `Environment.AllSetFoldMeansAllSet` | src/index.ts:41 | the `Boolean(...)` reduction from `true` yields true iff every name is defined and non-empty |
| `Environment.MissingFoldAppendsUndefined` | src/index.ts:44 | the `=== undefined` reduction appends the undefined names to its accumulator, in list order |
| `Environment.CheckThrowsIffSomeUnset` | src/index.ts:41-46 | the check throws iff some required name is undefined or the empty string |
| `Environment.CheckReportsUndefinedInOrder` | src/index.ts:44-45 | when it throws, the list holds, in `requiredVars` order, exactly the undefined names |
| `Environment.EmptyValueThrowsButIsNotListed` | src/index.ts:30-45 | a required variable set to "" makes the check throw but is missing from the reported list |
| `Environment.AllEmptyReportsEmptyList` | src/index.ts:30-45 | if every required variable is present but empty, the check throws with an empty list |
| `Wallets.DerivationPath` | src/index.ts:54 | every path starts with `m/44'/60'/0'/0/` followed by the index in decimal |
| `Wallets.Decimal` | src/index.ts:54 | the rendering of `${j}` is non-empty decimal digits with no leading zero |
| `Wallets.PathRoundTrip` | src/index.ts:54 | the index can be read back from the path |
| `Wallets.PathsDistinct` | src/index.ts:53-54 | distinct indices give distinct derivation paths |
| `Wallets.GetWallets` | src/index.ts:48-66 | succeeds iff derivation succeeds for every index below depth. The result has a key for every network, or no key at all when depth is 0. The list for a network holds exactly depth accounts, the j-th derived from the mnemonic along `m/44'/60'/0'/0/j` |
| `Wallets.SameAddressOnEveryNetwork` | src/index.ts:53-57 | position j holds the same path and the same derived address on every network |
| `Wallets.PoolCoversEveryNetwork` | src/index.ts:50-63 | with a positive depth every network gets exactly depth accounts |
| `FeeEstimator.Pooled` | src/index.ts:86 | the pooled list is as long as the three blocks together and holds exactly their transactions |
| `FeeEstimator.Priced` | src/index.ts:87 | a transaction is kept iff it is in the input and its gas price is > 0, and the list does not grow |
| `FeeEstimator.GasPrices` | src/index.ts:88 | position k of the result is the gas price of the k-th kept transaction |
| `FeeEstimator.Sum` | src/index.ts:89 | the reduction from 0 is at least each of the summed prices |
| `FeeEstimator.BlockAverageEstimate` | src/index.ts:86-91 | with no positive price among the three blocks the estimate is 0 |
| `FeeEstimator.FilterMapSumAgree` | src/index.ts:87-89 | filter, map and reduce give the number and the sum of the positive gas prices |
| `FeeEstimator.EstimateIsBufferedAverage` | src/index.ts:86-91 | the estimate is `(sum of positive prices / n) * 102 / 100` with both divisions truncating; n is the count of those prices, or 1 when there are none |
| `FeeEstimator.EstimateAtLeastAverage` | src/index.ts:91 | the buffered estimate is never below the truncated average |
| `FeeEstimator.EstimateZeroIffNoPricedTransaction` | src/index.ts:89-91 | the estimate is 0, not an error, iff none of the three blocks has a transaction with a positive gas price |
| `FeeEstimator.EstimateBoundedByHighestPrice` | src/index.ts:86-91 | with all prices at most cap, the estimate is at most cap * 102 / 100 |
| `FeeEstimator.EstimateBoundedByLowestPrice` | src/index.ts:86-91 | with some priced transaction and every positive price at least a floor, the estimate is at least that floor |
| `FeeEstimator.EstimateIgnoresBlockOrder` | src/index.ts:86 | the estimate is the same for any of the six orders of the three blocks; it is proved for the reversal and two swaps, which together generate them all |
| `FeeEstimator.ExampleBufferTruncatesAway` | src/index.ts:87-91 | prices 10, 20, 30 plus a free transaction give 20, because the 2% buffer truncates away |
| `FeeEstimator.ExampleDoubleTruncation` | src/index.ts:91 | prices 100 and 99 give 100, while a single truncation would give 101 |
| `FeeEstimator.EstimateGasPrice` | src/index.ts:68-96 | the estimation resolves to `undefined` exactly when any awaited call of the estimation rejects (`getNetwork` or a block read) |
| `SweepDecision.TransferCost` | src/index.ts:125 | the cost is 0 exactly when the price is 0, and at least 21000 otherwise |
| `SweepDecision.Decide` | src/index.ts:117-137 | a transaction exists iff balance > 21000 * price, comparing strictly. When it exists, value + 21000 * price == balance and value > 0. Its gasLimit is 21000, its gasPrice is the estimate, it goes from the wallet to the destination, and its chainId is the network's |
| `SweepDecision.EqualBalanceIsNotSwept` | src/index.ts:126 | a balance equal to the transfer cost is not swept |
| `SweepDecision.ZeroPriceSweepsWholeBalance` | src/index.ts:125-135 | at price 0 any positive balance is forwarded whole, at gas price 0 |
| `SweepDecision.CheaperPriceStillSweeps` | src/index.ts:125-135 | a lower price keeps a worthy wallet worthy and forwards at least as much |
| `SweepDecision.ExampleDustAndSweep` | src/index.ts:125-135 | at 10 per unit of gas, 100000 is dust and 1000000 forwards 790000 |
| `SweepPass.ScanWallet` | src/index.ts:121-139 | the body fails with "no wallet" iff the wallet is missing, with "balance unavailable" iff the balance read fails, and with "no estimate" iff the estimate is undefined after both succeed. It skips or submits only when all three are present: it skips only when the decision says dust, and it submits only the transaction the decision builds, once the node accepts it. A rejected send is reported only when the node rejected |
| `SweepPass.ScanWalletDecides` | src/index.ts:124-139 | when the wallet, the balance and the estimate are all there, the step skips a dust wallet without sending. Otherwise it submits exactly when the node accepts and fails with the rejected send exactly when the node rejects |
| `SweepPass.SweepPrefix` | src/index.ts:120-141 | after n iterations at most n indices are scanned, all n when nothing failed, and there are no more accepted transactions than scanned indices |
| `SweepPass.SweepRun` | src/index.ts:119-144 | a pass scans at most depth indices, and all of them when nothing fails |
| `SweepPass.FailureComesFromScan` | src/index.ts:119-144 | a failed pass stopped at the index whose loop body threw, with that body's exception |
| `SweepPass.FailureIsFinal` | src/index.ts:119-144 | once an iteration throws, further iterations change nothing: the catch is outside the loop |
| `SweepPass.PassShape` | src/index.ts:120-141 | a pass scans at most depth indices, and all of them when nothing fails. Accepted transactions come in strictly ascending index order, so there is at most one per index. Each index is below the scanned count, and below the failing index when there is one |
| `SweepPass.SentAreExactlyAccepted` | src/index.ts:120-141 | an index has an accepted transaction iff the loop reached it and its wallet existed, its balance was read, the estimate was defined, the balance exceeded the cost and the node accepted |
| `SweepPass.SentMatchScan` | src/index.ts:121-139 | each accepted transaction is the one the loop body builds for its index |
| `SweepPass.SentTransactionsAreDecisions` | src/index.ts:124-137 | each accepted transaction forwards balance - 21000 * estimate from its wallet to the destination, with gas limit 21000, the cached gas price and the network's chain id |
| `SweepPass.NothingAttemptedAfterFailure` | src/index.ts:119-144 | after an exception at index k the pass's outcome does not depend on any index above k |
| `SweepPass.UndefinedEstimateSubmitsNothing` | src/index.ts:119-144 | with the estimate undefined a pass submits nothing and stops at index 0, at the `mul` when wallet and balance are there |
| `SweepPass.CompletePassSweepsEveryWorthyWallet` | src/index.ts:120-141 | a pass without failure sends for exactly the indices whose balance exceeds 21000 * estimate |
| `Engine.Refreshed` | src/index.ts:112-114 | each listed network's entry becomes the estimation's result, `undefined` included, and the others are untouched |
| `Engine.FailedEstimationClearsEstimate` | src/index.ts:94-96 | a failed estimation overwrites the entry with `undefined`, and the next pass over that network submits nothing |
| `Engine.AfterBlock` | src/index.ts:146-156 | `handleBlock` writes only its own network's entry, writes nothing but the refresh result, and writes nothing when the estimate is undefined |
| `Engine.AfterBlockEffect` | src/index.ts:146-156 | with the estimate undefined, `handleBlock` leaves the cache alone. Otherwise it replaces the entry by the refresh result iff the block number is not a multiple of 4, and other networks are never touched |
| `Engine.Apply` | src/index.ts:146-171 | a mainnet block touches only mainnet's entry, an interval refresh only the test networks', a late landing only its own network's. Mainnet stays undefined unless an estimation lands on it, and no entry is ever removed |
| `Engine.ApplyAll` | src/index.ts:110-171 | an entry that no event of the sequence may write keeps its value. Only mainnet blocks write mainnet, and only landing estimations write any entry. No key is ever removed |
| `Engine.MainnetLockedOut` | src/index.ts:146-171 | once mainnet's estimate is undefined it stays undefined through later blocks and interval refreshes, as long as no refresh started by an earlier block lands on mainnet. Every mainnet block until then is skipped |
| `Engine.LateLandingRestoresMainnet` | src/index.ts:150-152 | a refresh started by an earlier block that lands after mainnet became undefined restores the estimate, and the next block is handled again |
| `Engine.TestnetEntryIsLastRefresh` | src/index.ts:167-171 | a test network's entry is set by the last interval refresh when no late estimation lands on it afterwards; mainnet blocks do not touch it |
| `Engine.NonLandingEventsKeepTestnet` | src/index.ts:146-171 | a test network's entry changes only when an estimation lands on it |
| `Engine.Sweeper.constructor` | src/index.ts:110 | the sweeper starts with an empty fee cache |
| `Engine.Sweeper.RefreshAll` | src/index.ts:112-114 | the cache becomes `Refreshed` of the old cache for the listed networks |
| `Engine.Sweeper.Sweep` | src/index.ts:118-145 | the loop's outcome equals the pass specification over the network's wallets, the destination and the cached estimate |
| `Engine.Sweeper.HandleBlock` | src/index.ts:146-158 | with the estimate undefined it returns without a pass. Otherwise it runs the pass on the estimate it found, and the new cache is that of `AfterBlock` |
| `Engine.Sweeper.SweepTestnets` | src/index.ts:162-166 | the interval sweep runs one pass per test network, and each pass is determined by that network's own wallets, estimate and chain answers |
| `Engine.Start` | src/index.ts:99-116 | a configuration error iff the environment check throws, carrying its list. A derivation failure iff some path does not derive. Otherwise a fresh sweeper with the destination, the pool and the five initial estimations in its cache |

## Left out

- The gasnow HTTP shortcut in `estimateGasPrice` is not part of this model (src/index.ts:71-82). It is a network call that applies only to mainnet. For mainnet, the modelled estimate is what the code returns only when that call fails or is not ok.
- RPC calls are inputs, not computations: `getNetwork`, `getBlockWithTransactions`, `getBalance`, `sendTransaction` and `provider.ready`. Blocks arrive as a `BlockSample`, and balances and send results as `rpc(i)`. Waiting on `provider.ready` is not modelled.
- `getAddress` is not modelled as a failure point. It resolves the wallet's own address.
- Key derivation (`Wallet.fromMnemonic`, BIP-32/BIP-39 cryptography) is the parameter `derive`. A `None` from it stands for the library rejecting the mnemonic.
- The timers, the block subscription, the never-resolving Promise and `Promise.all` are left out, because they concern scheduling. The refresh timer's period `SWEEP_FREQ ^ 1.06` is a bitwise XOR of `ToInt32(SWEEP_FREQ)` with 1. For the default 30000 ms it is 30001 ms. It is not modelled.
- Engine.Sweeper.HandleBlock: the refresh is not awaited in the source, so its result may land at any point during the pass. The model lets the whole pass read the estimate held when the block arrived, and stores the refresh afterwards.
- Engine.Sweeper.SweepTestnets: the passes run concurrently in the source. The model runs them one after another on one cache snapshot. This difference cannot be observed, because passes do not write the cache.
- A pass reads the cache once per iteration in the source. The model reads one snapshot per pass, so a refresh landing mid-pass is not captured.
- Two passes of the same network can overlap in the source. The model does not represent that.
- Engine.Start: in the source the five initial estimations run concurrently with `getWallets` and land whenever they resolve. The model stores them after the pool is built.
- Engine.MainnetLockedOut: a `MainnetBlock` event takes the refresh it starts to land before the next event. In the source the refresh is not awaited, so a refresh from an earlier block can land after the estimate became undefined and restore mainnet. The model has that case as a separate `LateLanding` event, which the lemma excludes and `LateLandingRestoresMainnet` exhibits.
- `Engine.ApplyAll` does not track which refreshes are still pending. Any `LateLanding` event is accepted, including one that no earlier block or start-up estimation started.
- The parsing of `sweep_frequency` and `sweep_depth` with `parseInt` and its defaults is left out (src/index.ts:26-27). The depth is a parameter.
- Console logging, `utils.formatUnits` and the wording of the thrown error message are output formatting, so they are left out. The model keeps the error's list of names.
- `process.exit` handling after `main` is left out (src/index.ts:175-177).
- `types/ethers-contracts/index.ts` holds generated contract typings and no logic, so it is not part of this model.
