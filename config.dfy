/**
 * get_args: the option dictionary built in three layers (built-in defaults,
 * then the TOML file, then the command line), and the check of the
 * comma-separated output list.
 */
module Config {
  import opened Wrappers
  import opened Values
  import opened Text

  const DefaultRelay: string := "ws://localhost:8081"
  const DefaultNetwork: string := "any"
  const DefaultOutput: string := "mempool"

  /** The options the command line defines; it yields a value for each of them. */
  const CommandLineKeys: set<string> := {"relay", "network", "output", "user", "password", "debug"}

  /** The values `--network` accepts. */
  const NetworkChoices: set<Value> := {Str("any"), Str("mainnet"), Str("testnet"), Str("signet")}

  /** The output services a configuration may name. */
  const ValidOutputs: set<string> := {"mempool", "blockstream", "bitcoind"}

  /** The built-in defaults, before the TOML file and the command line. */
  function Defaults(): (d: Dict)
    ensures d.Keys == CommandLineKeys
  {
    map["relay" := Str(DefaultRelay), "network" := Str(DefaultNetwork), "output" := Str(DefaultOutput),
        "user" := Null, "password" := Null, "debug" := Flag(false)]
  }

  /**
   * The options actually written on a command line: only options the parser
   * defines, and `--network` only with one of its choices.
   */
  predicate WellFormedCommandLine(given: Dict)
  {
    given.Keys <= CommandLineKeys && ("network" in given ==> given["network"] in NetworkChoices)
  }

  /**
   * get_cmdline_args as written: every option the command line defines,
   * taking the given value, else the current value, except that `--network`
   * falls back to the constant "any" rather than the current value.
   */
  function CommandLineAsWritten(given: Dict, current: Dict): (r: Dict)
    requires WellFormedCommandLine(given) && CommandLineKeys <= current.Keys
    ensures r.Keys == CommandLineKeys
  {
    map k | k in CommandLineKeys ::
      if k in given then given[k] else if k == "network" then Str("any") else current[k]
  }

  /**
   * get_cmdline_args as evidently intended: every option the command line
   * defines falls back to the current value, `--network` included.
   */
  function CommandLine(given: Dict, current: Dict): (r: Dict)
    requires WellFormedCommandLine(given) && CommandLineKeys <= current.Keys
    ensures r.Keys == CommandLineKeys
  {
    map k | k in CommandLineKeys :: if k in given then given[k] else current[k]
  }

  /** The option dictionary after the three layers (before the output list is split). */
  function Layered(toml: Dict, given: Dict): (ret: Dict)
    requires WellFormedCommandLine(given)
    ensures ret.Keys == CommandLineKeys + toml.Keys
  {
    var afterToml := Defaults() + toml;
    afterToml + CommandLine(given, afterToml)
  }

  /** The same, with the command line as written. */
  function LayeredAsWritten(toml: Dict, given: Dict): (ret: Dict)
    requires WellFormedCommandLine(given)
    ensures ret.Keys == CommandLineKeys + toml.Keys
  {
    var afterToml := Defaults() + toml;
    afterToml + CommandLineAsWritten(given, afterToml)
  }

  /**
   * Precedence of the layers: the command line over the TOML file over the
   * defaults, key by key; keys only the TOML file has pass through.
   */
  lemma LayeredPrecedence(toml: Dict, given: Dict, k: string)
    requires WellFormedCommandLine(given)
    ensures k in Layered(toml, given) <==> k in CommandLineKeys || k in toml
    ensures k in given ==> Layered(toml, given)[k] == given[k]
    ensures k !in given && k in toml ==> Layered(toml, given)[k] == toml[k]
    ensures k !in given && k !in toml && k in CommandLineKeys ==> Layered(toml, given)[k] == Defaults()[k]
  {
  }

  /** As written, a network set in the TOML file is lost when the command line sets none. */
  lemma TomlNetworkLost()
    ensures LayeredAsWritten(map["network" := Str("testnet")], map[])["network"] == Str("any")
    ensures Layered(map["network" := Str("testnet")], map[])["network"] == Str("testnet")
  {
  }

  /** The written and the intended command line differ in the network option alone. */
  lemma AsWrittenDiffersOnlyInNetwork(toml: Dict, given: Dict, k: string)
    requires WellFormedCommandLine(given) && k != "network"
    ensures k in LayeredAsWritten(toml, given) <==> k in Layered(toml, given)
    ensures k in Layered(toml, given) ==> LayeredAsWritten(toml, given)[k] == Layered(toml, given)[k]
  {
  }

  /** Errors get_args raises. */
  datatype ArgsError =
    | InvalidOutput(output: string)   // ConfigError: not a known service
    | CredentialsRequired             // ConfigError: bitcoind without user and password
    | OutputNotString                 // the output option is not a string, so it cannot be split

  /** Whether one entry of the output list passes its check. */
  predicate Accepted(o: string, ret: Dict)
    requires "user" in ret && "password" in ret
  {
    o in ValidOutputs && (o == "bitcoind" ==> Truthy(ret["user"]) && Truthy(ret["password"]))
  }

  /** The error a rejected entry raises. */
  function Rejection(o: string): ArgsError
  {
    if o !in ValidOutputs then InvalidOutput(o) else CredentialsRequired
  }

  /** The pieces of the layered output option. */
  function Outputs(ret: Dict): seq<string>
    requires "output" in ret && ret["output"].Str?
  {
    Split(ret["output"].s, ',')
  }

  /** The error of the first rejected entry of `outs`, checked left to right; None if all pass. */
  function FirstRejection(outs: seq<string>, ret: Dict): Option<ArgsError>
    requires "user" in ret && "password" in ret
  {
    if outs == [] then None
    else if !Accepted(outs[0], ret) then Some(Rejection(outs[0]))
    else FirstRejection(outs[1..], ret)
  }

  /** No entry is rejected exactly when every entry passes. */
  lemma {:induction false} NoRejectionIffAllAccepted(outs: seq<string>, ret: Dict)
    requires "user" in ret && "password" in ret
    ensures FirstRejection(outs, ret).None? <==> forall i :: 0 <= i < |outs| ==> Accepted(outs[i], ret)
  {
    if outs != [] {
      NoRejectionIffAllAccepted(outs[1..], ret);
      assert forall i :: 1 <= i < |outs| ==> outs[i] == outs[1..][i - 1];
    }
  }

  /** A rejection is the error of an entry that fails while every earlier entry passes. */
  lemma {:induction false} RejectionIsFirstFailure(outs: seq<string>, ret: Dict)
    requires "user" in ret && "password" in ret
    requires FirstRejection(outs, ret).Some?
    ensures exists i :: 0 <= i < |outs| && !Accepted(outs[i], ret)
                     && FirstRejection(outs, ret) == Some(Rejection(outs[i]))
                     && forall j :: 0 <= j < i ==> Accepted(outs[j], ret)
  {
    if Accepted(outs[0], ret) {
      RejectionIsFirstFailure(outs[1..], ret);
      var k :| 0 <= k < |outs[1..]| && !Accepted(outs[1..][k], ret)
               && FirstRejection(outs[1..], ret) == Some(Rejection(outs[1..][k]))
               && forall j :: 0 <= j < k ==> Accepted(outs[1..][j], ret);
      assert outs[k + 1] == outs[1..][k];
      assert forall j :: 1 <= j < k + 1 ==> outs[j] == outs[1..][j - 1];
    } else {
      assert !Accepted(outs[0], ret);
    }
  }

  /** Checking that entries past a passing one is the same as checking the rest. */
  lemma FirstRejectionStep(outs: seq<string>, i: nat, ret: Dict)
    requires "user" in ret && "password" in ret
    requires i < |outs| && Accepted(outs[i], ret)
    ensures FirstRejection(outs[i..], ret) == FirstRejection(outs[i + 1..], ret)
  {
  }

  /** What main reads from the dictionary get_args returns. */
  predicate MainReady(args: Dict)
  {
    && "relay" in args && "network" in args && "user" in args && "password" in args
    && "output" in args && args["output"].Items?
  }

  /** The outcome of get_args: the split output list on success, else the first error. */
  function Assemble(toml: Dict, given: Dict): Result<Dict, ArgsError>
    requires WellFormedCommandLine(given)
  {
    var ret := Layered(toml, given);
    if !ret["output"].Str? then Failure(OutputNotString)
    else
      var outs := Outputs(ret);
      match FirstRejection(outs, ret)
      case None => Success(ret["output" := Items(outs)])
      case Some(e) => Failure(e)
  }

  /**
   * get_args succeeds exactly when the output option is a string each of
   * whose comma-separated entries is a known service, with a non-empty user
   * and password wherever bitcoind is named; the result is then the layered
   * dictionary with the output option split, which has what main reads.
   */
  lemma AssembleSucceeds(toml: Dict, given: Dict)
    requires WellFormedCommandLine(given)
    ensures var ret := Layered(toml, given);
      Assemble(toml, given).Success? <==>
        ret["output"].Str? && forall i :: 0 <= i < |Outputs(ret)| ==> Accepted(Outputs(ret)[i], ret)
    ensures var ret := Layered(toml, given);
      Assemble(toml, given).Success? ==>
        && Assemble(toml, given).value == ret["output" := Items(Outputs(ret))]
        && MainReady(Assemble(toml, given).value)
        && (forall o :: o in Assemble(toml, given).value["output"].items ==> o in ValidOutputs)
        && ("bitcoind" in Assemble(toml, given).value["output"].items ==> Truthy(ret["user"]) && Truthy(ret["password"]))
  {
    var ret := Layered(toml, given);
    if ret["output"].Str? {
      NoRejectionIffAllAccepted(Outputs(ret), ret);
    }
  }

  /**
   * When get_args fails on the output list, the error is that of its first
   * rejected entry: an unknown service, or bitcoind without credentials.
   */
  lemma AssembleFailsOnFirstRejection(toml: Dict, given: Dict)
    requires WellFormedCommandLine(given)
    requires Layered(toml, given)["output"].Str? && Assemble(toml, given).Failure?
    ensures var ret := Layered(toml, given);
      var outs := Outputs(ret);
      exists i :: 0 <= i < |outs| && !Accepted(outs[i], ret)
               && Assemble(toml, given).error == Rejection(outs[i])
               && forall j :: 0 <= j < i ==> Accepted(outs[j], ret)
  {
    RejectionIsFirstFailure(Outputs(Layered(toml, given)), Layered(toml, given));
  }

  /**
   * get_args, with `toml` the contents of the TOML file and `given` the
   * options written on the command line: the dictionary is updated layer by
   * layer, the output option split, and its entries checked in order.
   */
  method GetArgs(toml: Dict, given: Dict) returns (r: Result<Dict, ArgsError>)
    requires WellFormedCommandLine(given)
    ensures r == Assemble(toml, given)
  {
    var ret := Defaults();
    ret := ret + toml;
    ret := ret + CommandLine(given, ret);
    ghost var layered := ret;
    assert layered == Layered(toml, given);
    if !ret["output"].Str? {
      return Failure(OutputNotString);
    }
    var outs := Split(ret["output"].s, ',');
    ret := ret["output" := Items(outs)];
    var i := 0;
    while i < |outs|
      invariant 0 <= i <= |outs|
      invariant FirstRejection(outs, layered) == FirstRejection(outs[i..], layered)
    {
      var o := outs[i];
      if o !in ValidOutputs {
        return Failure(InvalidOutput(o));
      }
      if o == "bitcoind" && (!Truthy(ret["user"]) || !Truthy(ret["password"])) {
        return Failure(CredentialsRequired);
      }
      FirstRejectionStep(outs, i, layered);
      i := i + 1;
    }
    return Success(ret);
  }
}
