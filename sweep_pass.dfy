/**
 * One sweep pass over a network's wallets (`sweep`): indices
 * 0..depth-1 in ascending order, one balance read and at most one
 * transaction per index. The only `try/catch` wraps the whole loop, so the
 * first exception ends the pass. What the chain answers at index i is the
 * parameter `rpc(i)`.
 */
module SweepPass {
  import opened Wrappers
  import opened Networks
  import opened Wallets
  import opened SweepDecision

  /** The chain's answers at one wallet: the balance (`None`: the call failed) and whether the transaction was accepted. */
  datatype Reply = Reply(balance: Option<nat>, sendAccepted: bool)

  /** Why a pass stopped early. */
  datatype Failure =
    | NoWallet            // `wallets[network][i]` is undefined, so `getAddress` throws
    | BalanceUnavailable  // `getBalance` rejected
    | NoEstimate          // `transferGasCost.mul(undefined)` throws
    | SendRejected        // `sendTransaction` rejected

  /** What happened at one index. */
  datatype Step = Skip | Submit(tx: TxRequest) | Fail(failure: Failure)

  /** A transaction the node accepted, with the wallet index it swept. */
  datatype Sent = Sent(index: nat, tx: TxRequest)

  /** The outcome of a pass: accepted transactions, how many indices were scanned, and the failure that ended it, if any. */
  datatype Pass = Pass(sent: seq<Sent>, scanned: nat, failure: Option<Failure>)

  /** Everything a pass reads besides the chain: the network's wallets, the destination and the cached estimate. */
  datatype Context = Context(network: Network, wallets: Option<seq<Account>>, destination: string, price: Option<nat>)

  function WalletAt(ctx: Context, i: nat): Option<Account>
  {
    if ctx.wallets.Some? && i < |ctx.wallets.value| then Some(ctx.wallets.value[i]) else None
  }

  /** One iteration of the loop body, in the order of its awaited calls. */
  function ScanWallet(ctx: Context, i: nat, reply: Reply): (r: Step)
    ensures r == Fail(NoWallet) <==> WalletAt(ctx, i).None?
    ensures r == Fail(BalanceUnavailable) <==> WalletAt(ctx, i).Some? && reply.balance.None?
    ensures r == Fail(NoEstimate) <==> WalletAt(ctx, i).Some? && reply.balance.Some? && ctx.price.None?
    ensures r == Fail(SendRejected) ==> !reply.sendAccepted
    ensures r.Submit? || r.Skip? ==>
              && WalletAt(ctx, i).Some? && reply.balance.Some? && ctx.price.Some?
              && (r.Skip? <==> Decide(reply.balance.value, ctx.price.value, ctx.destination,
                                      WalletAt(ctx, i).value.address, ctx.network).None?)
    ensures r.Submit? ==>
              && reply.sendAccepted
              && Decide(reply.balance.value, ctx.price.value, ctx.destination,
                        WalletAt(ctx, i).value.address, ctx.network) == Some(r.tx)
  {
    match WalletAt(ctx, i)
    case None => Fail(NoWallet)
    case Some(w) =>
      match reply.balance
      case None => Fail(BalanceUnavailable)
      case Some(balance) =>
        match ctx.price
        case None => Fail(NoEstimate)
        case Some(p) =>
          match Decide(balance, p, ctx.destination, w.address, ctx.network)
          case None => Skip
          case Some(tx) => if reply.sendAccepted then Submit(tx) else Fail(SendRejected)
  }

  /**
   * Once the wallet, its balance and the estimate are there, the decision
   * alone settles the step: dust is skipped without a send, and otherwise
   * the step submits or fails exactly as the node accepts or rejects.
   */
  lemma ScanWalletDecides(ctx: Context, i: nat, reply: Reply)
    requires WalletAt(ctx, i).Some? && reply.balance.Some? && ctx.price.Some?
    ensures var d := Decide(reply.balance.value, ctx.price.value, ctx.destination,
                            WalletAt(ctx, i).value.address, ctx.network);
            var r := ScanWallet(ctx, i, reply);
            && (r == Skip <==> d.None?)
            && (r == Fail(SendRejected) <==> d.Some? && !reply.sendAccepted)
            && (r.Submit? <==> d.Some? && reply.sendAccepted)
  {
  }

  /** The state of the pass after the loop has run for indices 0..n-1, or stopped earlier. */
  function SweepPrefix(ctx: Context, rpc: nat -> Reply, n: nat): (r: Pass)
    ensures r.scanned <= n
    ensures r.failure.None? ==> r.scanned == n
    ensures |r.sent| <= r.scanned
    decreases n
  {
    if n == 0 then Pass([], 0, None)
    else
      var p := SweepPrefix(ctx, rpc, n - 1);
      if p.failure.Some? then p
      else
        match ScanWallet(ctx, n - 1, rpc(n - 1))
        case Skip => Pass(p.sent, n, None)
        case Submit(tx) => Pass(p.sent + [Sent(n - 1, tx)], n, None)
        case Fail(f) => Pass(p.sent, n, Some(f))
  }

  /** A complete pass: `for (let i = 0; i < WALLET_DEPTH; i++)`. */
  function SweepRun(ctx: Context, rpc: nat -> Reply, depth: nat): (r: Pass)
    ensures r.scanned <= depth
    ensures r.failure.None? ==> r.scanned == depth
  {
    SweepPrefix(ctx, rpc, depth)
  }

  /** Index i is swept: the wallet exists, its balance was read, the estimate is defined, the balance exceeds the cost and the node accepts. */
  predicate Accepted(ctx: Context, i: nat, reply: Reply)
  {
    ScanWallet(ctx, i, reply).Submit?
  }

  /** Once a pass has failed, running the loop further changes nothing. */
  lemma {:induction false} FailureIsFinal(ctx: Context, rpc: nat -> Reply, n: nat, m: nat)
    requires n <= m
    requires SweepPrefix(ctx, rpc, n).failure.Some?
    ensures SweepPrefix(ctx, rpc, m) == SweepPrefix(ctx, rpc, n)
    decreases m - n
  {
    if n < m {
      FailureIsFinal(ctx, rpc, n, m - 1);
    }
  }

  /**
   * The shape of a pass: at most `n` indices scanned, all of them when
   * nothing failed; accepted transactions in strictly ascending index order
   * (so at most one per index), every one below the scanned count and
   * below the failing index when there is one.
   */
  lemma {:induction false} PassShape(ctx: Context, rpc: nat -> Reply, n: nat)
    ensures var p := SweepPrefix(ctx, rpc, n);
            && p.scanned <= n
            && (p.failure.None? ==> p.scanned == n)
            && (p.failure.Some? ==> p.scanned >= 1)
            && (forall a, b :: 0 <= a < b < |p.sent| ==> p.sent[a].index < p.sent[b].index)
            && (forall a :: 0 <= a < |p.sent| ==> p.sent[a].index < p.scanned)
            && (p.failure.Some? ==> forall a :: 0 <= a < |p.sent| ==> p.sent[a].index < p.scanned - 1)
    decreases n
  {
    if n > 0 {
      PassShape(ctx, rpc, n - 1);
    }
  }

  /** A pass that failed stopped at the index whose loop body threw, and with that body's exception. */
  lemma {:induction false} FailureComesFromScan(ctx: Context, rpc: nat -> Reply, n: nat)
    ensures var p := SweepPrefix(ctx, rpc, n);
            p.failure.Some? ==>
              && p.scanned >= 1
              && ScanWallet(ctx, p.scanned - 1, rpc(p.scanned - 1)) == Fail(p.failure.value)
    decreases n
  {
    if n > 0 {
      FailureComesFromScan(ctx, rpc, n - 1);
    }
  }

  /** The wallet indices of a list of accepted transactions. */
  function SentIndices(sent: seq<Sent>): set<nat>
  {
    set a | 0 <= a < |sent| :: sent[a].index
  }

  /**
   * An index appears among the accepted transactions exactly when the loop
   * reached it and it was swept.
   */
  lemma {:induction false} SentAreExactlyAccepted(ctx: Context, rpc: nat -> Reply, n: nat)
    ensures var p := SweepPrefix(ctx, rpc, n);
            forall j: nat :: j in SentIndices(p.sent) <==> j < p.scanned && Accepted(ctx, j, rpc(j))
    decreases n
  {
    if n > 0 {
      SentAreExactlyAccepted(ctx, rpc, n - 1);
      PassShape(ctx, rpc, n - 1);
      var p := SweepPrefix(ctx, rpc, n - 1);
      if p.failure.None? {
        match ScanWallet(ctx, n - 1, rpc(n - 1))
        case Skip =>
        case Fail(_) =>
        case Submit(tx) =>
          assert SentIndices(p.sent + [Sent(n - 1, tx)]) == SentIndices(p.sent) + {n - 1} by {
            var s := p.sent + [Sent(n - 1, tx)];
            assert forall a :: 0 <= a < |p.sent| ==> s[a] == p.sent[a];
            assert s[|p.sent|].index == n - 1;
          }
      }
    }
  }

  /** The transaction sent for an index is the one the loop body builds there. */
  lemma {:induction false} SentMatchScan(ctx: Context, rpc: nat -> Reply, n: nat)
    ensures forall s :: s in SweepPrefix(ctx, rpc, n).sent ==> ScanWallet(ctx, s.index, rpc(s.index)) == Submit(s.tx)
    decreases n
  {
    if n > 0 {
      SentMatchScan(ctx, rpc, n - 1);
      var p := SweepPrefix(ctx, rpc, n - 1);
      if p.failure.None? {
        match ScanWallet(ctx, n - 1, rpc(n - 1))
        case Skip =>
          assert SweepPrefix(ctx, rpc, n).sent == p.sent;
        case Fail(_) =>
          assert SweepPrefix(ctx, rpc, n).sent == p.sent;
        case Submit(tx) =>
          assert SweepPrefix(ctx, rpc, n).sent == p.sent + [Sent(n - 1, tx)];
      }
    }
  }

  /**
   * Each accepted transaction forwards its wallet's balance minus
   * 21000 * estimate to the destination, from that wallet, at the cached
   * estimate, with gas limit 21000 and the network's chain id.
   */
  lemma SentTransactionsAreDecisions(ctx: Context, rpc: nat -> Reply, n: nat, a: nat)
    requires a < |SweepPrefix(ctx, rpc, n).sent|
    ensures var s := SweepPrefix(ctx, rpc, n).sent[a];
            && ctx.price.Some?
            && WalletAt(ctx, s.index).Some?
            && rpc(s.index).balance.Some?
            && rpc(s.index).sendAccepted
            && s.tx.value + TransferGasCost * ctx.price.value == rpc(s.index).balance.value
            && s.tx.value > 0
            && s.tx.gasPrice == ctx.price.value
            && s.tx.gasLimit == TransferGasCost
            && s.tx.to == ctx.destination
            && s.tx.from == WalletAt(ctx, s.index).value.address
            && s.tx.chainId == ChainId(ctx.network)
  {
    SentMatchScan(ctx, rpc, n);
    assert SweepPrefix(ctx, rpc, n).sent[a] in SweepPrefix(ctx, rpc, n).sent;
  }

  /**
   * No index after the failing one is attempted: the outcome of a pass
   * that failed at index k does not depend on what the chain would have
   * answered at any index above k.
   */
  lemma {:induction false} NothingAttemptedAfterFailure(ctx: Context, rpc1: nat -> Reply, rpc2: nat -> Reply,
                                                        k: nat, depth: nat)
    requires k < depth
    requires SweepPrefix(ctx, rpc1, k + 1).failure.Some?
    requires forall j :: 0 <= j <= k ==> rpc1(j) == rpc2(j)
    ensures SweepRun(ctx, rpc1, depth) == SweepRun(ctx, rpc2, depth)
  {
    PrefixDependsOnlyOnEarlierReplies(ctx, rpc1, rpc2, k + 1);
    FailureIsFinal(ctx, rpc1, k + 1, depth);
    FailureIsFinal(ctx, rpc2, k + 1, depth);
  }

  lemma {:induction false} PrefixDependsOnlyOnEarlierReplies(ctx: Context, rpc1: nat -> Reply, rpc2: nat -> Reply, n: nat)
    requires forall j :: 0 <= j < n ==> rpc1(j) == rpc2(j)
    ensures SweepPrefix(ctx, rpc1, n) == SweepPrefix(ctx, rpc2, n)
    decreases n
  {
    if n > 0 {
      PrefixDependsOnlyOnEarlierReplies(ctx, rpc1, rpc2, n - 1);
    }
  }

  /**
   * With the cached estimate undefined, a pass submits nothing: it stops
   * at index 0, at the `mul` call when the wallet and its balance are
   * there.
   */
  lemma UndefinedEstimateSubmitsNothing(ctx: Context, rpc: nat -> Reply, depth: nat)
    requires ctx.price.None? && depth > 0
    ensures SweepRun(ctx, rpc, depth).sent == []
    ensures SweepRun(ctx, rpc, depth).scanned == 1
    ensures SweepRun(ctx, rpc, depth).failure.Some?
    ensures WalletAt(ctx, 0).Some? && rpc(0).balance.Some? ==>
              SweepRun(ctx, rpc, depth).failure == Some(NoEstimate)
  {
    FailureIsFinal(ctx, rpc, 1, depth);
  }

  /**
   * A pass that meets no failure scans every index and sends a
   * transaction for exactly the wallets whose balance exceeds the cost.
   */
  lemma CompletePassSweepsEveryWorthyWallet(ctx: Context, rpc: nat -> Reply, depth: nat, j: nat)
    requires SweepRun(ctx, rpc, depth).failure.None?
    requires j < depth
    ensures WalletAt(ctx, j).Some? && rpc(j).balance.Some? && ctx.price.Some?
    ensures j in SentIndices(SweepRun(ctx, rpc, depth).sent) <==> rpc(j).balance.value > TransferGasCost * ctx.price.value
  {
    PassShape(ctx, rpc, depth);
    SentAreExactlyAccepted(ctx, rpc, depth);
    NoFailureBeforeEnd(ctx, rpc, depth, j);
  }

  /** When a pass does not fail, no index below depth produced a failure. */
  lemma {:induction false} NoFailureBeforeEnd(ctx: Context, rpc: nat -> Reply, n: nat, j: nat)
    requires SweepPrefix(ctx, rpc, n).failure.None?
    requires j < n
    ensures !ScanWallet(ctx, j, rpc(j)).Fail?
    decreases n
  {
    var p := SweepPrefix(ctx, rpc, n - 1);
    if p.failure.Some? {
      assert false;
    }
    if j < n - 1 {
      NoFailureBeforeEnd(ctx, rpc, n - 1, j);
    }
  }
}
