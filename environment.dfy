/**
 * The start-up check of the required environment variables
 * (`checkEnvironment`). The environment is a map from variable name to
 * value; a name that is not a key is `undefined`.
 */
module Environment {

  type Env = map<string, string>

  /** The names that must be present, in the order they are reported. */
  const RequiredVars: seq<string> := [
    "destination",
    "sweep_mnemonic",
    "sweep_depth",
    "sweep_frequency",
    "mainnet_rpc",
    "rinkeby_rpc",
    "kovan_rpc",
    "ropsten_rpc",
    "goerli_rpc"
  ]

  /** `Boolean(process.env[name])`: defined and not the empty string. */
  predicate IsSet(env: Env, name: string)
  {
    name in env && env[name] != ""
  }

  /** The reduction deciding whether to throw: a left fold starting from `acc`. */
  function AllSetFold(env: Env, names: seq<string>, acc: bool): (r: bool)
    ensures r ==> acc
    ensures (exists k :: 0 <= k < |names| && !IsSet(env, names[k])) ==> !r
    decreases |names|
  {
    if names == [] then acc
    else AllSetFold(env, names[1..], if IsSet(env, names[0]) then acc else false)
  }

  /** The reduction collecting the names to report: a left fold onto `acc`. */
  function MissingFold(env: Env, names: seq<string>, acc: seq<string>): (r: seq<string>)
    ensures |acc| <= |r| <= |acc| + |names| && r[..|acc|] == acc
    decreases |names|
  {
    if names == [] then acc
    else MissingFold(env, names[1..], if names[0] !in env then acc + [names[0]] else acc)
  }

  /** Reference definition: the names of `names` that are undefined, in order. */
  function Undefined(env: Env, names: seq<string>): (r: seq<string>)
    ensures forall v :: v in r <==> v in names && v !in env
    ensures |r| <= |names|
  {
    if names == [] then []
    else (if names[0] !in env then [names[0]] else []) + Undefined(env, names[1..])
  }

  datatype CheckResult = Passed | MissingVariables(missing: seq<string>)

  /** The check over an arbitrary list of names. */
  function CheckVariables(env: Env, names: seq<string>): (r: CheckResult)
    ensures r.Passed? ==> forall k :: 0 <= k < |names| ==> IsSet(env, names[k])
    ensures r.MissingVariables? ==> forall v :: v in r.missing ==> v in names && v !in env
  {
    if AllSetFold(env, names, true) then Passed
    else
      MissingFoldAppendsUndefined(env, names, []);
      MissingVariables(MissingFold(env, names, []))
  }

  /** `checkEnvironment()`: `MissingVariables` stands for the thrown error. */
  function CheckEnvironment(env: Env): (r: CheckResult)
    ensures r.Passed? ==> forall v :: v in RequiredVars ==> IsSet(env, v)
    ensures r.MissingVariables? ==> forall v :: v in r.missing ==> v in RequiredVars && v !in env
  {
    CheckThrowsIffSomeUnset(env, RequiredVars);
    CheckVariables(env, RequiredVars)
  }

  lemma {:induction false} AllSetFoldMeansAllSet(env: Env, names: seq<string>, acc: bool)
    ensures AllSetFold(env, names, acc) <==> acc && forall v :: v in names ==> IsSet(env, v)
    decreases |names|
  {
    if names != [] {
      AllSetFoldMeansAllSet(env, names[1..], if IsSet(env, names[0]) then acc else false);
      assert forall v :: v in names <==> v == names[0] || v in names[1..];
    }
  }

  lemma {:induction false} MissingFoldAppendsUndefined(env: Env, names: seq<string>, acc: seq<string>)
    ensures MissingFold(env, names, acc) == acc + Undefined(env, names)
    decreases |names|
  {
    if names != [] {
      var acc' := if names[0] !in env then acc + [names[0]] else acc;
      MissingFoldAppendsUndefined(env, names[1..], acc');
    }
  }

  lemma {:induction false} NothingUndefined(env: Env, names: seq<string>)
    requires forall v :: v in names ==> v in env
    ensures Undefined(env, names) == []
    decreases |names|
  {
    if names != [] {
      assert names[0] in names;
      NothingUndefined(env, names[1..]);
    }
  }

  /** The check throws exactly when some name is undefined or empty. */
  lemma CheckThrowsIffSomeUnset(env: Env, names: seq<string>)
    ensures CheckVariables(env, names).MissingVariables? <==> exists v :: v in names && !IsSet(env, v)
  {
    AllSetFoldMeansAllSet(env, names, true);
  }

  /**
   * When it throws, the report lists, in the order of `names`, exactly the
   * names that are undefined.
   */
  lemma CheckReportsUndefinedInOrder(env: Env, names: seq<string>)
    ensures CheckVariables(env, names).MissingVariables? ==>
              CheckVariables(env, names).missing == Undefined(env, names)
    ensures CheckVariables(env, names).MissingVariables? ==>
              forall v :: v in CheckVariables(env, names).missing <==> v in names && v !in env
  {
    MissingFoldAppendsUndefined(env, names, []);
  }

  /** A required variable set to the empty string makes the check throw but is not listed. */
  lemma EmptyValueThrowsButIsNotListed(env: Env, v: string)
    requires v in RequiredVars && v in env && env[v] == ""
    ensures CheckEnvironment(env).MissingVariables?
    ensures v !in CheckEnvironment(env).missing
  {
    CheckThrowsIffSomeUnset(env, RequiredVars);
    CheckReportsUndefinedInOrder(env, RequiredVars);
  }

  /** Every required variable defined but only empty ones present: the error lists nothing. */
  lemma AllEmptyReportsEmptyList(env: Env)
    requires forall v :: v in RequiredVars ==> v in env && env[v] == ""
    ensures CheckEnvironment(env) == MissingVariables([])
  {
    CheckThrowsIffSomeUnset(env, RequiredVars);
    CheckReportsUndefinedInOrder(env, RequiredVars);
    assert "destination" in RequiredVars;
    NothingUndefined(env, RequiredVars);
  }
}
