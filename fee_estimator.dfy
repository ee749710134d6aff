/**
 * The block-average branch of `estimateGasPrice`: pool the transactions of
 * the latest block and the two before it, keep those with a positive gas
 * price, take the truncating integer average (dividing by 1 when none
 * qualify) and add a 2% buffer, again truncating. BigNumber arithmetic is
 * exact, and every operand here is non-negative, so BigNumber's `div`
 * agrees with Dafny's `/`.
 */
module FeeEstimator {
  import opened Wrappers

  /** A transaction as far as the estimator looks at it. */
  datatype Transaction = Transaction(gasPrice: int)

  datatype Block = Block(transactions: seq<Transaction>)

  /**
   * What the three `getBlockWithTransactions` calls produced, or
   * `Unavailable` when any awaited call of the estimation rejected
   * (`getNetwork` or one of the block reads).
   */
  datatype BlockSample = Sampled(latest: Block, previous: Block, beforePrevious: Block) | Unavailable

  /** `mul(102).div(100)`: the buffer applied to the average. */
  const BufferNumerator: nat := 102
  const BufferDenominator: nat := 100

  /** `[...block.transactions, ...block1.transactions, ...block2.transactions]`. */
  function Pooled(b0: Block, b1: Block, b2: Block): (r: seq<Transaction>)
    ensures |r| == |b0.transactions| + |b1.transactions| + |b2.transactions|
    ensures forall t :: t in r <==> t in b0.transactions || t in b1.transactions || t in b2.transactions
  {
    b0.transactions + b1.transactions + b2.transactions
  }

  /** `transactions.filter((tx) => tx.gasPrice.gt(0))`. */
  function Priced(txs: seq<Transaction>): (r: seq<Transaction>)
    ensures forall k :: 0 <= k < |r| ==> r[k].gasPrice > 0
    ensures forall t :: t in r <==> t in txs && t.gasPrice > 0
    ensures |r| <= |txs|
  {
    if txs == [] then []
    else (if txs[0].gasPrice > 0 then [txs[0]] else []) + Priced(txs[1..])
  }

  /** `filteredTxList.map((tx) => tx.gasPrice)`. */
  function GasPrices(txs: seq<Transaction>): (r: seq<nat>)
    requires forall k :: 0 <= k < |txs| ==> txs[k].gasPrice > 0
    ensures |r| == |txs|
    ensures forall k :: 0 <= k < |r| ==> r[k] == txs[k].gasPrice
  {
    if txs == [] then [] else [txs[0].gasPrice as nat] + GasPrices(txs[1..])
  }

  /** `gasPrices.reduce((acc, cur) => acc.add(cur), BigNumber.from(0))`. */
  function Sum(xs: seq<nat>): (r: nat)
    ensures forall k :: 0 <= k < |xs| ==> xs[k] <= r
  {
    if xs == [] then 0 else xs[0] + Sum(xs[1..])
  }

  /** The estimate computed from three blocks. */
  function BlockAverageEstimate(b0: Block, b1: Block, b2: Block): (r: nat)
    ensures (forall t :: t in Pooled(b0, b1, b2) ==> t.gasPrice <= 0) ==> r == 0
  {
    var gasPrices := GasPrices(Priced(Pooled(b0, b1, b2)));
    var gasSum := Sum(gasPrices);
    var divisor := if |gasPrices| == 0 then 1 else |gasPrices|;
    gasSum / divisor * BufferNumerator / BufferDenominator
  }

  /**
   * `estimateGasPrice` without the gasnow shortcut: any failed RPC call is
   * caught and the promise resolves to `undefined`.
   */
  function EstimateGasPrice(sample: BlockSample): (r: Option<nat>)
    ensures r.None? <==> sample.Unavailable?
  {
    match sample
    case Unavailable => None
    case Sampled(b0, b1, b2) => Some(BlockAverageEstimate(b0, b1, b2))
  }

  // Reference definitions over the raw transaction list.

  /** The number of transactions with a positive gas price. */
  function CountPositive(txs: seq<Transaction>): nat
  {
    if txs == [] then 0 else (if txs[0].gasPrice > 0 then 1 else 0) + CountPositive(txs[1..])
  }

  /** The sum of the positive gas prices. */
  function SumPositive(txs: seq<Transaction>): nat
  {
    if txs == [] then 0
    else (if txs[0].gasPrice > 0 then txs[0].gasPrice as nat else 0) + SumPositive(txs[1..])
  }

  lemma {:induction false} FilterMapSumAgree(txs: seq<Transaction>)
    ensures |Priced(txs)| == CountPositive(txs)
    ensures Sum(GasPrices(Priced(txs))) == SumPositive(txs)
    decreases |txs|
  {
    if txs != [] {
      FilterMapSumAgree(txs[1..]);
      if txs[0].gasPrice > 0 {
        assert Priced(txs) == [txs[0]] + Priced(txs[1..]);
        assert GasPrices(Priced(txs)) == [txs[0].gasPrice as nat] + GasPrices(Priced(txs[1..]));
      } else {
        assert Priced(txs) == Priced(txs[1..]);
      }
    }
  }

  lemma {:induction false} CountAndSumSplit(a: seq<Transaction>, b: seq<Transaction>)
    ensures CountPositive(a + b) == CountPositive(a) + CountPositive(b)
    ensures SumPositive(a + b) == SumPositive(a) + SumPositive(b)
    decreases |a|
  {
    if a != [] {
      assert (a + b)[0] == a[0];
      assert (a + b)[1..] == a[1..] + b;
      CountAndSumSplit(a[1..], b);
    } else {
      assert a + b == b;
    }
  }

  /** Each positive price is at least 1, so the sum is at least the count. */
  lemma {:induction false} SumAtLeastCount(txs: seq<Transaction>)
    ensures SumPositive(txs) >= CountPositive(txs)
    decreases |txs|
  {
    if txs != [] {
      SumAtLeastCount(txs[1..]);
    }
  }

  /** Prices bounded by `cap` sum to at most count * cap. */
  lemma {:induction false} SumAtMostCountTimesCap(txs: seq<Transaction>, cap: nat)
    requires forall k :: 0 <= k < |txs| ==> txs[k].gasPrice <= cap
    ensures SumPositive(txs) <= CountPositive(txs) * cap
    decreases |txs|
  {
    if txs != [] {
      SumAtMostCountTimesCap(txs[1..], cap);
    }
  }

  /** Positive prices bounded below by `floor` sum to at least count * floor. */
  lemma {:induction false} SumAtLeastCountTimesFloor(txs: seq<Transaction>, floor: nat)
    requires forall k :: 0 <= k < |txs| && txs[k].gasPrice > 0 ==> txs[k].gasPrice >= floor
    ensures SumPositive(txs) >= CountPositive(txs) * floor
    decreases |txs|
  {
    if txs != [] {
      SumAtLeastCountTimesFloor(txs[1..], floor);
    }
  }

  /**
   * The estimate is the truncated average of the positive gas prices of the
   * pooled transactions, times 102, truncated again after dividing by 100.
   * The divisor is the number of those prices, or 1 when there are none.
   */
  lemma EstimateIsBufferedAverage(b0: Block, b1: Block, b2: Block)
    ensures var txs := Pooled(b0, b1, b2);
            var n := CountPositive(txs);
            BlockAverageEstimate(b0, b1, b2)
              == SumPositive(txs) / (if n == 0 then 1 else n) * 102 / 100
  {
    FilterMapSumAgree(Pooled(b0, b1, b2));
  }

  /** Truncating the average before the buffer never takes the estimate below the average. */
  lemma EstimateAtLeastAverage(b0: Block, b1: Block, b2: Block)
    ensures var txs := Pooled(b0, b1, b2);
            var n := CountPositive(txs);
            BlockAverageEstimate(b0, b1, b2) >= SumPositive(txs) / (if n == 0 then 1 else n)
  {
    EstimateIsBufferedAverage(b0, b1, b2);
  }

  /**
   * The estimate is 0 exactly when none of the three blocks holds a
   * transaction with a positive gas price; the guarded divisor means this
   * case yields 0 rather than an error.
   */
  lemma EstimateZeroIffNoPricedTransaction(b0: Block, b1: Block, b2: Block)
    ensures BlockAverageEstimate(b0, b1, b2) == 0 <==> CountPositive(Pooled(b0, b1, b2)) == 0
  {
    var txs := Pooled(b0, b1, b2);
    EstimateIsBufferedAverage(b0, b1, b2);
    var n := CountPositive(txs);
    if n > 0 {
      SumAtLeastCount(txs);
      AverageAtLeastFloor(SumPositive(txs), n, 1);
    } else {
      SumAtMostCountTimesCap(txs, 0) by {
        NoPositiveMeansNonPositive(txs);
      }
    }
  }

  lemma {:induction false} NoPositiveMeansNonPositive(txs: seq<Transaction>)
    requires CountPositive(txs) == 0
    ensures forall k :: 0 <= k < |txs| ==> txs[k].gasPrice <= 0
    decreases |txs|
  {
    if txs != [] {
      NoPositiveMeansNonPositive(txs[1..]);
      assert forall k :: 1 <= k < |txs| ==> txs[k] == txs[1..][k - 1];
    }
  }

  lemma {:induction false} MulMonotone(x: nat, y: nat, k: nat)
    requires x <= y
    ensures x * k <= y * k
    decreases k
  {
    if k > 0 {
      MulMonotone(x, y, k - 1);
      assert x * k == x * (k - 1) + x;
      assert y * k == y * (k - 1) + y;
    }
  }

  lemma DivMonotone(a: nat, b: nat, d: nat)
    requires d > 0 && a <= b
    ensures a / d <= b / d
  {
    var qa, qb := a / d, b / d;
    assert qa * d <= a;
    assert b < (qb + 1) * d;
    if qa > qb {
      MulMonotone(qb + 1, qa, d);
    }
  }

  /** A sum of n terms each at most cap averages to at most cap. */
  lemma AverageAtMostCap(sum: nat, n: nat, cap: nat)
    requires n > 0 && sum <= n * cap
    ensures sum / n <= cap
  {
    var q := sum / n;
    assert q * n <= sum;
    if q > cap {
      MulMonotone(cap + 1, q, n);
    }
  }

  /** A sum of n terms each at least floor averages to at least floor. */
  lemma AverageAtLeastFloor(sum: nat, n: nat, floor: nat)
    requires n > 0 && sum >= n * floor
    ensures sum / n >= floor
  {
    var q := sum / n;
    assert sum < (q + 1) * n;
    if q < floor {
      MulMonotone(q + 1, floor, n);
    }
  }

  /** With every gas price at most `cap`, the estimate is at most cap * 102 / 100. */
  lemma EstimateBoundedByHighestPrice(b0: Block, b1: Block, b2: Block, cap: nat)
    requires forall t :: t in Pooled(b0, b1, b2) ==> t.gasPrice <= cap
    ensures BlockAverageEstimate(b0, b1, b2) <= cap * 102 / 100
  {
    var txs := Pooled(b0, b1, b2);
    var n := CountPositive(txs);
    EstimateIsBufferedAverage(b0, b1, b2);
    SumAtMostCountTimesCap(txs, cap);
    var avg := SumPositive(txs) / (if n == 0 then 1 else n);
    assert avg <= cap by {
      if n > 0 {
        AverageAtMostCap(SumPositive(txs), n, cap);
      }
    }
    MulMonotone(avg, cap, 102);
    DivMonotone(avg * 102, cap * 102, 100);
  }

  /** With at least one priced transaction and every positive price at least `floor`, the estimate is at least `floor`. */
  lemma EstimateBoundedByLowestPrice(b0: Block, b1: Block, b2: Block, floor: nat)
    requires CountPositive(Pooled(b0, b1, b2)) > 0
    requires forall t :: t in Pooled(b0, b1, b2) && t.gasPrice > 0 ==> t.gasPrice >= floor
    ensures BlockAverageEstimate(b0, b1, b2) >= floor
  {
    var txs := Pooled(b0, b1, b2);
    var n := CountPositive(txs);
    EstimateIsBufferedAverage(b0, b1, b2);
    SumAtLeastCountTimesFloor(txs, floor);
    AverageAtLeastFloor(SumPositive(txs), n, floor);
    EstimateAtLeastAverage(b0, b1, b2);
  }

  /** Pooling is insensitive to the order in which the three blocks are concatenated. */
  lemma EstimateIgnoresBlockOrder(b0: Block, b1: Block, b2: Block)
    ensures BlockAverageEstimate(b0, b1, b2) == BlockAverageEstimate(b2, b1, b0)
    ensures BlockAverageEstimate(b0, b1, b2) == BlockAverageEstimate(b1, b0, b2)
    ensures BlockAverageEstimate(b0, b1, b2) == BlockAverageEstimate(b0, b2, b1)
  {
    PooledCountAndSum(b0, b1, b2);
    assert BlockAverageEstimate(b0, b1, b2) == BlockAverageEstimate(b2, b1, b0) by {
      PooledCountAndSum(b2, b1, b0);
      SameCountAndSumSameEstimate(b0, b1, b2, b2, b1, b0);
    }
    assert BlockAverageEstimate(b0, b1, b2) == BlockAverageEstimate(b1, b0, b2) by {
      PooledCountAndSum(b1, b0, b2);
      SameCountAndSumSameEstimate(b0, b1, b2, b1, b0, b2);
    }
    assert BlockAverageEstimate(b0, b1, b2) == BlockAverageEstimate(b0, b2, b1) by {
      PooledCountAndSum(b0, b2, b1);
      SameCountAndSumSameEstimate(b0, b1, b2, b0, b2, b1);
    }
  }

  /** The estimate depends on the pooled transactions only through the count and the sum of their positive prices. */
  lemma SameCountAndSumSameEstimate(a0: Block, a1: Block, a2: Block, c0: Block, c1: Block, c2: Block)
    requires CountPositive(Pooled(a0, a1, a2)) == CountPositive(Pooled(c0, c1, c2))
    requires SumPositive(Pooled(a0, a1, a2)) == SumPositive(Pooled(c0, c1, c2))
    ensures BlockAverageEstimate(a0, a1, a2) == BlockAverageEstimate(c0, c1, c2)
  {
    EstimateIsBufferedAverage(a0, a1, a2);
    EstimateIsBufferedAverage(c0, c1, c2);
  }

  lemma PooledCountAndSum(b0: Block, b1: Block, b2: Block)
    ensures CountPositive(Pooled(b0, b1, b2))
            == CountPositive(b0.transactions) + CountPositive(b1.transactions) + CountPositive(b2.transactions)
    ensures SumPositive(Pooled(b0, b1, b2))
            == SumPositive(b0.transactions) + SumPositive(b1.transactions) + SumPositive(b2.transactions)
  {
    CountAndSumSplit(b0.transactions + b1.transactions, b2.transactions);
    CountAndSumSplit(b0.transactions, b1.transactions);
  }

  /**
   * Three priced transactions of 10, 20 and 30 and one free one: the average
   * is 20 and the buffered estimate truncates back to 20.
   */
  lemma ExampleBufferTruncatesAway()
    ensures BlockAverageEstimate(Block([Transaction(10), Transaction(0)]),
                                 Block([Transaction(20)]), Block([Transaction(30)])) == 20
  {
    var b0, b1, b2 := Block([Transaction(10), Transaction(0)]), Block([Transaction(20)]), Block([Transaction(30)]);
    assert b0.transactions[1..][1..] == [] && b1.transactions[1..] == [] && b2.transactions[1..] == [];
    assert CountPositive(b0.transactions) == 1 && SumPositive(b0.transactions) == 10;
    assert CountPositive(b1.transactions) == 1 && SumPositive(b1.transactions) == 20;
    assert CountPositive(b2.transactions) == 1 && SumPositive(b2.transactions) == 30;
    EstimateFromCountAndSum(b0, b1, b2, 3, 60);
  }

  /** The buffered average written with the per-block counts and sums. */
  lemma EstimateFromCountAndSum(b0: Block, b1: Block, b2: Block, n: nat, total: nat)
    requires CountPositive(b0.transactions) + CountPositive(b1.transactions) + CountPositive(b2.transactions) == n
    requires SumPositive(b0.transactions) + SumPositive(b1.transactions) + SumPositive(b2.transactions) == total
    ensures BlockAverageEstimate(b0, b1, b2) == total / (if n == 0 then 1 else n) * 102 / 100
  {
    PooledCountAndSum(b0, b1, b2);
    var txs := Pooled(b0, b1, b2);
    assert CountPositive(txs) == n && SumPositive(txs) == total;
    EstimateIsBufferedAverage(b0, b1, b2);
  }

  /**
   * The double truncation: prices 100 and 99 average to 99 (truncated) and
   * give 100, while a single truncation of 199 * 102 / 200 would give 101.
   */
  lemma ExampleDoubleTruncation()
    ensures BlockAverageEstimate(Block([Transaction(100)]), Block([Transaction(99)]), Block([])) == 100
    ensures (100 + 99) * 102 / (2 * 100) == 101
  {
    var b0, b1, b2 := Block([Transaction(100)]), Block([Transaction(99)]), Block([]);
    var txs := Pooled(b0, b1, b2);
    assert txs == [Transaction(100), Transaction(99)];
    assert CountPositive(txs) == 2 && SumPositive(txs) == 199 by {
      assert txs[1..] == [Transaction(99)];
    }
    EstimateIsBufferedAverage(b0, b1, b2);
  }
}
