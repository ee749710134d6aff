/**
 * The wallet pool built at start-up (`getWallets`): for every network, in
 * enum order, `depth` accounts derived from one mnemonic along the BIP-44
 * paths m/44'/60'/0'/0/j (purpose 44, coin type 60, account 0, external
 * chain 0, address index j). Key derivation itself is a parameter `derive`
 * that maps a mnemonic and a path to an address, or to `None` when the
 * library rejects the mnemonic.
 */
module Wallets {
  import opened Wrappers
  import opened Networks

  type Address = string

  /** One derived wallet, connected to the provider of `network`. */
  datatype Account = Account(network: Network, index: nat, path: string, address: Address)

  type Pool = map<Network, seq<Account>>

  /** The fixed part of every derivation path. */
  const PathPrefix: string := "m/44'/60'/0'/0/"

  function DigitChar(d: nat): (c: char)
    requires d < 10
    ensures '0' <= c <= '9' && c as int - '0' as int == d
  {
    ('0' as int + d) as char
  }

  /** The decimal rendering of `n` that a template literal produces. */
  function Decimal(n: nat): (s: string)
    ensures |s| >= 1
    ensures forall k :: 0 <= k < |s| ==> '0' <= s[k] <= '9'
    ensures |s| > 1 ==> s[0] != '0'
  {
    if n < 10 then [DigitChar(n)] else Decimal(n / 10) + [DigitChar(n % 10)]
  }

  /** Reads a string of decimal digits back as a number. */
  function ParseDecimal(s: string): nat
    requires forall k :: 0 <= k < |s| ==> '0' <= s[k] <= '9'
  {
    if s == [] then 0
    else ParseDecimal(s[..|s| - 1]) * 10 + (s[|s| - 1] as int - '0' as int)
  }

  /** `m/44'/60'/0'/0/${j}`. */
  function DerivationPath(j: nat): (p: string)
    ensures |p| > |PathPrefix| && p[..|PathPrefix|] == PathPrefix
  {
    PathPrefix + Decimal(j)
  }

  /** Recovers the address index from a path of the shape DerivationPath builds. */
  function PathIndex(p: string): Option<nat>
  {
    if |p| > |PathPrefix| && p[..|PathPrefix|] == PathPrefix
       && forall k :: |PathPrefix| <= k < |p| ==> '0' <= p[k] <= '9'
    then Some(ParseDecimal(p[|PathPrefix|..]))
    else None
  }

  lemma {:induction false} DecimalRoundTrip(n: nat)
    ensures ParseDecimal(Decimal(n)) == n
    decreases n
  {
    if n >= 10 {
      DecimalRoundTrip(n / 10);
      var s := Decimal(n);
      assert s[..|s| - 1] == Decimal(n / 10);
    }
  }

  /** The index can be read back from the path, so the path determines the index. */
  lemma PathRoundTrip(j: nat)
    ensures PathIndex(DerivationPath(j)) == Some(j)
  {
    var p := DerivationPath(j);
    assert p[|PathPrefix|..] == Decimal(j);
    DecimalRoundTrip(j);
  }

  /** Distinct indices are derived along distinct paths. */
  lemma PathsDistinct(i: nat, j: nat)
    requires i != j
    ensures DerivationPath(i) != DerivationPath(j)
  {
    PathRoundTrip(i);
    PathRoundTrip(j);
  }

  /** Every derivation for indices 0..depth-1 succeeds. */
  ghost predicate Derivable(mnemonic: string, depth: nat, derive: (string, string) -> Option<Address>)
  {
    forall j :: 0 <= j < depth ==> derive(mnemonic, DerivationPath(j)).Some?
  }

  /** `accounts` holds, at each position k, the account derived along DerivationPath(k) for `network`. */
  ghost predicate DerivedInOrder(accounts: seq<Account>, network: Network, mnemonic: string,
                                 derive: (string, string) -> Option<Address>)
  {
    forall k :: 0 <= k < |accounts| ==>
      var d := derive(mnemonic, DerivationPath(k));
      d.Some? && accounts[k] == Account(network, k, DerivationPath(k), d.value)
  }

  /**
   * The shape of a pool built by getWallets: a key only for networks that
   * received an account (none at all when depth is 0), exactly `depth`
   * accounts per network, the j-th derived along DerivationPath(j).
   */
  ghost predicate PoolOf(pool: Pool, mnemonic: string, depth: nat, derive: (string, string) -> Option<Address>)
  {
    && (forall n :: n in pool <==> depth > 0 && n in NetworkValues)
    && forall n :: n in pool ==> |pool[n]| == depth && DerivedInOrder(pool[n], n, mnemonic, derive)
  }

  /**
   * `getWallets`: nested loops over networks and indices pushing into the
   * dictionary. A derivation the library rejects aborts start-up (`None`).
   */
  method GetWallets(mnemonic: string, depth: nat, derive: (string, string) -> Option<Address>)
    returns (r: Option<Pool>)
    ensures r.Some? <==> Derivable(mnemonic, depth, derive)
    ensures r.Some? ==> PoolOf(r.value, mnemonic, depth, derive)
  {
    var wallets: Pool := map[];
    var i := 0;
    while i < |NetworkValues|
      invariant 0 <= i <= |NetworkValues|
      invariant depth > 0 && i > 0 ==> Derivable(mnemonic, depth, derive)
      invariant forall n :: n in wallets <==> depth > 0 && n in NetworkValues[..i]
      invariant forall n :: n in wallets ==> |wallets[n]| == depth && DerivedInOrder(wallets[n], n, mnemonic, derive)
    {
      var network := NetworkValues[i];
      ghost var before := wallets;
      var j := 0;
      while j < depth
        invariant 0 <= j <= depth
        invariant forall k :: 0 <= k < j ==> derive(mnemonic, DerivationPath(k)).Some?
        invariant forall n :: n in wallets <==> n in before || (j > 0 && n == network)
        invariant forall n :: n in before ==> wallets[n] == before[n]
        invariant j > 0 ==> |wallets[network]| == j && DerivedInOrder(wallets[network], network, mnemonic, derive)
      {
        var path := DerivationPath(j);
        var derived := derive(mnemonic, path);
        if derived.None? {
          return None;
        }
        var w := Account(network, j, path, derived.value);
        if network in wallets {
          wallets := wallets[network := wallets[network] + [w]];
        } else {
          wallets := wallets[network := [w]];
        }
        j := j + 1;
      }
      assert NetworkValues[..i + 1] == NetworkValues[..i] + [network];
      i := i + 1;
    }
    assert NetworkValues[..|NetworkValues|] == NetworkValues;
    return Some(wallets);
  }

  /** Position j holds the same derived address on every network. */
  lemma SameAddressOnEveryNetwork(pool: Pool, mnemonic: string, depth: nat,
                                  derive: (string, string) -> Option<Address>, a: Network, b: Network, j: nat)
    requires PoolOf(pool, mnemonic, depth, derive)
    requires a in pool && b in pool && j < depth
    ensures pool[a][j].address == pool[b][j].address
    ensures pool[a][j].path == pool[b][j].path == DerivationPath(j)
  {
  }

  /** With a positive depth every network of the enum gets its accounts. */
  lemma PoolCoversEveryNetwork(pool: Pool, mnemonic: string, depth: nat,
                               derive: (string, string) -> Option<Address>, n: Network)
    requires PoolOf(pool, mnemonic, depth, derive)
    requires depth > 0
    ensures n in pool && |pool[n]| == depth
  {
    NetworkValuesEnumerateAll(n);
  }
}
