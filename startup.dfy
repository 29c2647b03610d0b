/**
 * The handler list main builds from the options: one handler per enabled
 * output, in the order mempool, blockstream, bitcoind, each with the
 * handler's default network filter "any".
 */
module Startup {
  import opened Values
  import opened Broadcasters
  import opened Handling
  import opened Config

  /** The order in which main considers the output services. */
  const ServiceOrder: seq<string> := ["mempool", "blockstream", "bitcoind"]

  /** A service's position in ServiceOrder. */
  function Rank(name: string): nat
  {
    if name == "mempool" then 0 else if name == "blockstream" then 1 else 2
  }

  /** The services of `order` that `output` names, kept in the order of `order`. */
  function Enabled(order: seq<string>, output: seq<string>): (es: seq<string>)
    ensures forall s :: s in es <==> s in order && s in output
  {
    if order == [] then []
    else (if order[0] in output then [order[0]] else []) + Enabled(order[1..], output)
  }

  /** Enabled keeps an order that is strictly increasing in rank. */
  lemma {:induction false} EnabledKeepsOrder(order: seq<string>, output: seq<string>)
    requires forall i, j :: 0 <= i < j < |order| ==> Rank(order[i]) < Rank(order[j])
    ensures forall i, j :: 0 <= i < j < |Enabled(order, output)| ==>
      Rank(Enabled(order, output)[i]) < Rank(Enabled(order, output)[j])
  {
    if order != [] {
      EnabledKeepsOrder(order[1..], output);
      var rest := Enabled(order[1..], output);
      forall x | x in rest
        ensures Rank(order[0]) < Rank(x)
      {
        var k :| 0 <= k < |order[1..]| && order[1..][k] == x;
        assert order[k + 1] == x;
      }
    }
  }

  /** The three services main enables are exactly those named, one piece each. */
  lemma EnabledServices(output: seq<string>)
    ensures Enabled(ServiceOrder, output) ==
      (if "mempool" in output then ["mempool"] else []) +
      (if "blockstream" in output then ["blockstream"] else []) +
      (if "bitcoind" in output then ["bitcoind"] else [])
  {
    var o1: seq<string> := ["blockstream", "bitcoind"];
    var o2: seq<string> := ["bitcoind"];
    assert ServiceOrder[1..] == o1 && o1[1..] == o2 && o2[1..] == [];
    assert Enabled(o2, output) == (if "bitcoind" in output then ["bitcoind"] else []) + Enabled([], output);
    assert Enabled(o1, output) == (if "blockstream" in output then ["blockstream"] else []) + Enabled(o2, output);
  }

  /** The broadcaster main builds for a service, given the two API URL maps and the credentials. */
  function ServiceBroadcaster(name: string, mempoolUrls: map<Network, string>, blockstreamUrls: map<Network, string>,
                              user: Value, password: Value): (b: Broadcaster)
    ensures name in ServiceOrder ==> b.Name() == name
  {
    if name == "mempool" then ApiBroadcaster("mempool", mempoolUrls)
    else if name == "blockstream" then ApiBroadcaster("blockstream", blockstreamUrls)
    else BitcoindBroadcaster(user, password)
  }

  /** One handler with filter "any" per service, in the order given. */
  function HandlersFor(services: seq<string>, mempoolUrls: map<Network, string>, blockstreamUrls: map<Network, string>,
                       user: Value, password: Value): (hs: seq<Handler>)
    ensures |hs| == |services|
    ensures forall i :: 0 <= i < |services| ==>
      hs[i] == Handler(ServiceBroadcaster(services[i], mempoolUrls, blockstreamUrls, user, password), AnyNetwork)
  {
    if services == [] then []
    else [Handler(ServiceBroadcaster(services[0], mempoolUrls, blockstreamUrls, user, password), AnyNetwork)]
         + HandlersFor(services[1..], mempoolUrls, blockstreamUrls, user, password)
  }

  /** HandlersFor distributes over concatenation. */
  lemma HandlersForAppend(a: seq<string>, b: seq<string>, mempoolUrls: map<Network, string>,
                          blockstreamUrls: map<Network, string>, user: Value, password: Value)
    ensures HandlersFor(a + b, mempoolUrls, blockstreamUrls, user, password) ==
      HandlersFor(a, mempoolUrls, blockstreamUrls, user, password) + HandlersFor(b, mempoolUrls, blockstreamUrls, user, password)
  {
  }

  /**
   * The handlers for the enabled services: filter "any", one per service the
   * output list names, in the order mempool, blockstream, bitcoind.
   */
  lemma HandlersInServiceOrder(output: seq<string>, mempoolUrls: map<Network, string>,
                               blockstreamUrls: map<Network, string>, user: Value, password: Value, hs: seq<Handler>)
    requires hs == HandlersFor(Enabled(ServiceOrder, output), mempoolUrls, blockstreamUrls, user, password)
    ensures forall i :: 0 <= i < |hs| ==> hs[i].network == AnyNetwork
    ensures forall s :: s in ServiceOrder ==>
      (s in output <==> exists i :: 0 <= i < |hs| && hs[i].broadcaster.Name() == s)
    ensures forall i, j :: 0 <= i < j < |hs| ==> Rank(hs[i].broadcaster.Name()) < Rank(hs[j].broadcaster.Name())
  {
    var es := Enabled(ServiceOrder, output);
    EnabledKeepsOrder(ServiceOrder, output);
    assert forall i :: 0 <= i < |hs| ==> hs[i].broadcaster.Name() == es[i];
    forall s | s in ServiceOrder
      ensures s in output <==> exists i :: 0 <= i < |hs| && hs[i].broadcaster.Name() == s
    {
      if s in output {
        var i :| 0 <= i < |es| && es[i] == s;
        assert hs[i].broadcaster.Name() == s;
      }
    }
  }

  /**
   * The handler construction in main. `mempoolUrls` and `blockstreamUrls`
   * stand for the two URL maps util provides. The configured network is not
   * passed on: every handler keeps the filter "any".
   */
  method CreateHandlers(args: Dict, mempoolUrls: map<Network, string>, blockstreamUrls: map<Network, string>)
    returns (handlers: seq<Handler>)
    requires MainReady(args)
    ensures handlers == HandlersFor(Enabled(ServiceOrder, args["output"].items), mempoolUrls, blockstreamUrls,
                                    args["user"], args["password"])
    ensures forall i :: 0 <= i < |handlers| ==> handlers[i].network == AnyNetwork
    ensures forall s :: s in ServiceOrder ==>
      (s in args["output"].items <==> exists i :: 0 <= i < |handlers| && handlers[i].broadcaster.Name() == s)
    ensures forall i, j :: 0 <= i < j < |handlers| ==>
      Rank(handlers[i].broadcaster.Name()) < Rank(handlers[j].broadcaster.Name())
  {
    var output := args["output"].items;
    var user := args["user"];
    var password := args["password"];
    ghost var m: seq<string> := if "mempool" in output then ["mempool"] else [];
    ghost var b: seq<string> := if "blockstream" in output then ["blockstream"] else [];
    ghost var d: seq<string> := if "bitcoind" in output then ["bitcoind"] else [];
    handlers := [];
    if "mempool" in output {
      handlers := handlers + [Handler(ApiBroadcaster("mempool", mempoolUrls), AnyNetwork)];
    }
    assert handlers == HandlersFor(m, mempoolUrls, blockstreamUrls, user, password);
    HandlersForAppend(m, b, mempoolUrls, blockstreamUrls, user, password);
    ghost var hb := HandlersFor(b, mempoolUrls, blockstreamUrls, user, password);
    if "blockstream" in output {
      assert hb == [Handler(ApiBroadcaster("blockstream", blockstreamUrls), AnyNetwork)];
      handlers := handlers + [Handler(ApiBroadcaster("blockstream", blockstreamUrls), AnyNetwork)];
    } else {
      assert hb == [];
    }
    assert handlers == HandlersFor(m + b, mempoolUrls, blockstreamUrls, user, password);
    HandlersForAppend(m + b, d, mempoolUrls, blockstreamUrls, user, password);
    ghost var hd := HandlersFor(d, mempoolUrls, blockstreamUrls, user, password);
    if "bitcoind" in output {
      assert hd == [Handler(BitcoindBroadcaster(user, password), AnyNetwork)];
      handlers := handlers + [Handler(BitcoindBroadcaster(user, password), AnyNetwork)];
    } else {
      assert hd == [];
    }
    assert handlers == HandlersFor(m + b + d, mempoolUrls, blockstreamUrls, user, password);
    EnabledServices(output);
    assert Enabled(ServiceOrder, output) == m + b + d;
    HandlersInServiceOrder(output, mempoolUrls, blockstreamUrls, user, password, handlers);
  }
}
