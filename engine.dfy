/**
 * The running sweeper: the module-level `gasPriceEstimates` dictionary,
 * the wallet pool and the closures of `main` that read and write them
 * (`sweep`, `handleBlock`, the two interval callbacks), and `main`'s
 * start-up sequence.
 */
module Engine {
  import opened Wrappers
  import opened Networks
  import opened Wallets
  import opened SweepPass
  import Environment
  import FeeEstimator

  /** The fee cache: a key that was never written, or was written `undefined`, reads as `None`. */
  type Cache = map<Network, Option<nat>>

  function Lookup(cache: Cache, n: Network): Option<nat>
  {
    if n in cache then cache[n] else None
  }

  /**
   * `gasPriceEstimates[network] = price` for every network of `networks`
   * (the start-up `forEach`, and the interval refresh of the test
   * networks). Each write replaces the entry whole, `undefined` included.
   */
  function Refreshed(cache: Cache, networks: seq<Network>, results: Network -> Option<nat>): (r: Cache)
    ensures forall n :: n in networks ==> Lookup(r, n) == results(n)
    ensures forall n :: n !in networks ==> Lookup(r, n) == Lookup(cache, n)
  {
    map n | n in cache.Keys + (set m | m in networks) ::
      if n in networks then results(n) else cache[n]
  }

  /**
   * A refresh stores whatever the estimation resolved to: when the block
   * reads failed it writes `undefined` over the previous estimate, and the
   * next pass over that network submits nothing.
   */
  lemma FailedEstimationClearsEstimate(cache: Cache, networks: seq<Network>,
                                       samples: Network -> FeeEstimator.BlockSample, n: Network,
                                       wallets: Option<seq<Account>>, destination: string,
                                       rpc: nat -> Reply, depth: nat)
    requires n in networks && samples(n).Unavailable? && depth > 0
    ensures var after := Refreshed(cache, networks, m => FeeEstimator.EstimateGasPrice(samples(m)));
            && Lookup(after, n).None?
            && SweepRun(Context(n, wallets, destination, Lookup(after, n)), rpc, depth).sent == []
  {
    var after := Refreshed(cache, networks, m => FeeEstimator.EstimateGasPrice(samples(m)));
    UndefinedEstimateSubmitsNothing(Context(n, wallets, destination, Lookup(after, n)), rpc, depth);
  }

  /** The effect of `handleBlock` on the cache. */
  function AfterBlock(cache: Cache, network: Network, blocknumber: nat, refresh: Option<nat>): (r: Cache)
    ensures forall n :: n != network ==> Lookup(r, n) == Lookup(cache, n)
    ensures Lookup(r, network) == Lookup(cache, network) || Lookup(r, network) == refresh
    ensures Lookup(cache, network).None? ==> Lookup(r, network).None?
  {
    if Lookup(cache, network).None? then cache
    else if blocknumber % 4 != 0 then cache[network := refresh]
    else cache
  }

  /**
   * `handleBlock` changes nothing when the estimate is undefined, and
   * otherwise replaces it by the refresh result exactly when the block
   * number is not a multiple of 4; no other network is touched.
   */
  lemma AfterBlockEffect(cache: Cache, network: Network, blocknumber: nat, refresh: Option<nat>)
    ensures Lookup(cache, network).None? ==> AfterBlock(cache, network, blocknumber, refresh) == cache
    ensures Lookup(cache, network).Some? && blocknumber % 4 == 0 ==>
              AfterBlock(cache, network, blocknumber, refresh) == cache
    ensures Lookup(cache, network).Some? && blocknumber % 4 != 0 ==>
              Lookup(AfterBlock(cache, network, blocknumber, refresh), network) == refresh
    ensures forall n :: n != network ==> Lookup(AfterBlock(cache, network, blocknumber, refresh), n) == Lookup(cache, n)
  {
  }

  /**
   * The events after start-up that write the cache. A `MainnetBlock`
   * carries the result of the refresh it starts, taken to land before the
   * next event; a `LateLanding` is a refresh started earlier (by an earlier
   * block, or by the start-up estimation) whose result lands only now.
   */
  datatype Event =
    | MainnetBlock(blocknumber: nat, refresh: Option<nat>)  // the `block` listener on mainnet
    | TestnetRefresh(results: Network -> Option<nat>)       // the second interval callback
    | LateLanding(network: Network, price: Option<nat>)     // a pending `.then((price) => ...)` resolving

  /** Whether an event writes the entry of `n` unconditionally, as a landing estimation does. */
  predicate LandsOn(e: Event, n: Network)
  {
    (e.LateLanding? && e.network == n) || (e.TestnetRefresh? && n != Mainnet)
  }

  function Apply(cache: Cache, e: Event): (r: Cache)
    ensures forall n :: !LandsOn(e, n) && !e.MainnetBlock? ==> Lookup(r, n) == Lookup(cache, n)
    ensures forall n :: e.MainnetBlock? && n != Mainnet ==> Lookup(r, n) == Lookup(cache, n)
    ensures Lookup(cache, Mainnet).None? && !LandsOn(e, Mainnet) ==> Lookup(r, Mainnet).None?
    ensures cache.Keys <= r.Keys
  {
    TestnetsAreAllButMainnet();
    match e
    case MainnetBlock(b, refresh) => AfterBlock(cache, Mainnet, b, refresh)
    case TestnetRefresh(results) => Refreshed(cache, Testnets(), results)
    case LateLanding(n, price) => cache[n := price]
  }

  /** Whether an event may write the entry of `n`: a landing estimation, or a mainnet block on mainnet. */
  predicate Writes(e: Event, n: Network)
  {
    LandsOn(e, n) || (e.MainnetBlock? && n == Mainnet)
  }

  function ApplyAll(cache: Cache, events: seq<Event>): (r: Cache)
    ensures cache.Keys <= r.Keys
    ensures forall n :: (forall i :: 0 <= i < |events| ==> !Writes(events[i], n)) ==> Lookup(r, n) == Lookup(cache, n)
    decreases |events|
  {
    if events == [] then cache else ApplyAll(Apply(cache, events[0]), events[1..])
  }

  /**
   * Once the mainnet estimate is undefined (a failed estimation
   * overwrote it) it stays undefined as long as no refresh started before
   * that lands on mainnet: `handleBlock` returns before refreshing when the
   * estimate is undefined, and the interval refresh leaves mainnet out.
   * Every mainnet block until then is skipped.
   */
  lemma {:induction false} MainnetLockedOut(cache: Cache, events: seq<Event>)
    requires Lookup(cache, Mainnet).None?
    requires forall i :: 0 <= i < |events| ==> !LandsOn(events[i], Mainnet)
    ensures Lookup(ApplyAll(cache, events), Mainnet).None?
    decreases |events|
  {
    if events != [] {
      MainnetLockedOut(Apply(cache, events[0]), events[1..]);
    }
  }

  /**
   * The lock-out has a way out: a refresh started by an earlier block that
   * lands after the estimate became undefined restores it, and the next
   * mainnet block is handled again.
   */
  lemma LateLandingRestoresMainnet(cache: Cache, price: nat, blocknumber: nat, refresh: Option<nat>)
    requires Lookup(cache, Mainnet).None?
    ensures Lookup(ApplyAll(cache, [LateLanding(Mainnet, Some(price))]), Mainnet) == Some(price)
    ensures blocknumber % 4 != 0 ==>
              Lookup(ApplyAll(cache, [LateLanding(Mainnet, Some(price)), MainnetBlock(blocknumber, refresh)]), Mainnet)
              == refresh
  {
    var landed := Apply(cache, LateLanding(Mainnet, Some(price)));
    assert ApplyAll(cache, [LateLanding(Mainnet, Some(price))]) == ApplyAll(landed, []);
    assert [LateLanding(Mainnet, Some(price)), MainnetBlock(blocknumber, refresh)][1..] == [MainnetBlock(blocknumber, refresh)];
    assert ApplyAll(landed, [MainnetBlock(blocknumber, refresh)]) == ApplyAll(Apply(landed, MainnetBlock(blocknumber, refresh)), []);
  }

  /** Each test network's entry after a run of events is set by the last interval refresh alone when no late estimation lands on it afterwards, whatever the mainnet blocks did. */
  lemma {:induction false} TestnetEntryIsLastRefresh(cache: Cache, events: seq<Event>, n: Network, k: nat)
    requires n != Mainnet
    requires k < |events| && events[k].TestnetRefresh?
    requires forall i :: k < i < |events| ==> !LandsOn(events[i], n)
    ensures Lookup(ApplyAll(cache, events), n) == events[k].results(n)
    decreases |events|
  {
    TestnetsAreAllButMainnet();
    if k == 0 {
      NonLandingEventsKeepTestnet(Apply(cache, events[0]), events[1..], n);
    } else {
      TestnetEntryIsLastRefresh(Apply(cache, events[0]), events[1..], n, k - 1);
    }
  }

  /** A test network's entry changes only when an estimation lands on it; mainnet blocks and landings elsewhere leave it. */
  lemma {:induction false} NonLandingEventsKeepTestnet(cache: Cache, events: seq<Event>, n: Network)
    requires n != Mainnet
    requires forall i :: 0 <= i < |events| ==> !LandsOn(events[i], n)
    ensures Lookup(ApplyAll(cache, events), n) == Lookup(cache, n)
    decreases |events|
  {
    if events != [] {
      NonLandingEventsKeepTestnet(Apply(cache, events[0]), events[1..], n);
    }
  }

  /** The sweeper's state: configuration fixed at start-up and the fee cache. */
  class Sweeper {
    const destination: string
    const depth: nat
    const pool: Pool
    var estimates: Cache

    constructor (destination: string, depth: nat, pool: Pool)
      ensures this.destination == destination && this.depth == depth && this.pool == pool
      ensures estimates == map[]
    {
      this.destination := destination;
      this.depth := depth;
      this.pool := pool;
      estimates := map[];
    }

    /** `gasPriceEstimates[network]`. */
    function Estimate(network: Network): Option<nat>
      reads this
    {
      Lookup(estimates, network)
    }

    /** What a pass over `network` reads besides the chain. */
    function ContextFor(network: Network): Context
      reads this
    {
      Context(network, if network in pool then Some(pool[network]) else None, destination, Estimate(network))
    }

    /** `.then((price) => (gasPriceEstimates[network] = price))` for each network of `networks`. */
    method RefreshAll(networks: seq<Network>, results: Network -> Option<nat>)
      modifies this
      ensures estimates == Refreshed(old(estimates), networks, results)
    {
      ghost var start := estimates;
      for i := 0 to |networks|
        invariant forall n :: n in networks[..i] ==> Lookup(estimates, n) == results(n)
        invariant forall n :: n !in networks[..i] ==> Lookup(estimates, n) == Lookup(start, n)
        invariant estimates.Keys == start.Keys + set m | m in networks[..i]
      {
        assert networks[..i + 1] == networks[..i] + [networks[i]];
        estimates := estimates[networks[i] := results(networks[i])];
      }
      assert networks[..|networks|] == networks;
      ghost var expected := Refreshed(start, networks, results);
      assert estimates.Keys == expected.Keys;
      forall n | n in estimates.Keys
        ensures estimates[n] == expected[n]
      {
        assert Lookup(estimates, n) == Lookup(expected, n);
      }
    }

    /** `sweep(network)`: one pass over the network's wallets, reading the cache as it stands. */
    method Sweep(network: Network, rpc: nat -> Reply) returns (out: Pass)
      ensures out == SweepRun(ContextFor(network), rpc, depth)
    {
      ghost var ctx := ContextFor(network);
      var sent: seq<Sent> := [];
      var i := 0;
      while i < depth
        invariant i <= depth
        invariant Pass(sent, i, None) == SweepPrefix(ctx, rpc, i)
      {
        if network !in pool || i >= |pool[network]| {
          out := Pass(sent, i + 1, Some(NoWallet));
          FailureIsFinal(ctx, rpc, i + 1, depth);
          return;
        }
        var wallet := pool[network][i];
        var reply := rpc(i);
        if reply.balance.None? {
          out := Pass(sent, i + 1, Some(BalanceUnavailable));
          FailureIsFinal(ctx, rpc, i + 1, depth);
          return;
        }
        var balance := reply.balance.value;
        var price := Estimate(network);
        if price.None? {
          out := Pass(sent, i + 1, Some(NoEstimate));
          FailureIsFinal(ctx, rpc, i + 1, depth);
          return;
        }
        var transferCost := SweepDecision.TransferCost(price.value);
        if balance > transferCost {
          var transaction := SweepDecision.TxRequest(
            to := destination,
            from := wallet.address,
            gasLimit := SweepDecision.TransferGasCost,
            gasPrice := price.value,
            value := balance - transferCost,
            chainId := ChainId(network));
          if !reply.sendAccepted {
            out := Pass(sent, i + 1, Some(SendRejected));
            FailureIsFinal(ctx, rpc, i + 1, depth);
            return;
          }
          sent := sent + [Sent(i, transaction)];
        }
        i := i + 1;
      }
      out := Pass(sent, depth, None);
    }

    /**
     * `handleBlock(network, blocknumber)`. With the estimate undefined it
     * returns at once. Otherwise it starts a refresh when the block number
     * is not a multiple of 4 and sweeps. The refresh is not awaited; the
     * model lets the pass read the estimate held when the block arrived
     * and stores the refresh result afterwards.
     */
    method HandleBlock(network: Network, blocknumber: nat, refresh: Option<nat>, rpc: nat -> Reply)
      returns (out: Option<Pass>)
      modifies this
      ensures estimates == AfterBlock(old(estimates), network, blocknumber, refresh)
      ensures old(Estimate(network)).None? ==> out.None?
      ensures old(Estimate(network)).Some? ==> out == Some(SweepRun(old(ContextFor(network)), rpc, depth))
    {
      if Estimate(network).None? {
        return None;
      }
      var pass := Sweep(network, rpc);
      if blocknumber % 4 != 0 {
        estimates := estimates[network := refresh];
      }
      return Some(pass);
    }

    /** The first interval callback: `testnets.map(sweep)`, every pass independent of the others. */
    method SweepTestnets(rpc: Network -> nat -> Reply) returns (out: map<Network, Pass>)
      ensures out.Keys == set n | n in Testnets()
      ensures forall n :: n in out ==> out[n] == SweepRun(ContextFor(n), rpc(n), depth)
    {
      out := map[];
      var testnets := Testnets();
      for i := 0 to |testnets|
        invariant out.Keys == set n | n in testnets[..i]
        invariant forall n :: n in out ==> out[n] == SweepRun(ContextFor(n), rpc(n), depth)
      {
        assert testnets[..i + 1] == testnets[..i] + [testnets[i]];
        var pass := Sweep(testnets[i], rpc(testnets[i]));
        out := out[testnets[i] := pass];
      }
      assert testnets[..|testnets|] == testnets;
    }
  }

  /** How `main` ends up: a thrown configuration error, a rejected derivation, or a running sweeper. */
  datatype Startup = ConfigError(missing: seq<string>) | DerivationFailed | Running(sweeper: Sweeper)

  /**
   * `main` up to the point where the listeners are installed: check the
   * environment, start the five initial estimations (their results are
   * `initial`), and derive the wallet pool from `sweep_mnemonic`.
   */
  method Start(env: Environment.Env, depth: nat, derive: (string, string) -> Option<Address>,
               initial: Network -> Option<nat>)
    returns (r: Startup)
    ensures Environment.CheckEnvironment(env).MissingVariables? <==> r.ConfigError?
    ensures r.ConfigError? ==> r.missing == Environment.CheckEnvironment(env).missing
    ensures Environment.CheckEnvironment(env).Passed? ==>
              "sweep_mnemonic" in env && "destination" in env &&
              (r.DerivationFailed? <==> !Derivable(env["sweep_mnemonic"], depth, derive))
    ensures r.Running? ==>
              && fresh(r.sweeper)
              && r.sweeper.destination == env["destination"]
              && r.sweeper.depth == depth
              && PoolOf(r.sweeper.pool, env["sweep_mnemonic"], depth, derive)
              && r.sweeper.estimates == Refreshed(map[], NetworkValues, initial)
  {
    var check := Environment.CheckEnvironment(env);
    if check.MissingVariables? {
      return ConfigError(check.missing);
    }
    Environment.CheckThrowsIffSomeUnset(env, Environment.RequiredVars);
    assert "sweep_mnemonic" in Environment.RequiredVars && "destination" in Environment.RequiredVars;
    var wallets := GetWallets(env["sweep_mnemonic"], depth, derive);
    if wallets.None? {
      return DerivationFailed;
    }
    var sweeper := new Sweeper(env["destination"], depth, wallets.value);
    sweeper.RefreshAll(NetworkValues, initial);
    return Running(sweeper);
  }
}
