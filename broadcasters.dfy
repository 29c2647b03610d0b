/**
 * The two kinds of broadcaster: one that posts to a web API chosen by a
 * network-to-URL map, and one that calls `sendrawtransaction` on a local
 * bitcoind whose URLs are fixed. A broadcaster supports exactly the networks
 * its URL map has a key for.
 */
module Broadcasters {
  import opened Values

  /** A network name as carried by an event's `network` tag ("mainnet", "testnet", ...). */
  type Network = string

  /** The endpoints BitcoindBroadcaster hard-codes, one per network. */
  function BitcoindUrlMap(): map<Network, string>
  {
    map["mainnet" := "http://localhost:8332",
        "testnet" := "http://localhost:18332",
        "signet" := "http://localhost:38332"]
  }

  /** The request a broadcast_hex call issues to an external helper. */
  datatype Request =
    | ApiPost(url: string, txHex: string)
    | RpcSendRawTransaction(url: string, user: Value, password: Value, txHex: string)

  datatype Broadcaster =
    | ApiBroadcaster(name: string, urlMap: map<Network, string>)
    | BitcoindBroadcaster(user: Value, password: Value)
  {
    function Name(): string
    {
      if ApiBroadcaster? then name else "bitcoind"
    }

    function UrlMap(): map<Network, string>
    {
      if ApiBroadcaster? then urlMap else BitcoindUrlMap()
    }

    /** `supported_networks`: the key set of the URL map. */
    function SupportedNetworks(): set<Network>
    {
      UrlMap().Keys
    }

    /**
     * `broadcast_hex(tx_hex, network)`: the request sent for the transaction.
     * The source indexes the URL map with `network`, which fails for a key the
     * map lacks; hence the precondition.
     */
    function BroadcastHex(txHex: string, network: Network): (r: Request)
      requires network in SupportedNetworks()
      ensures r.url == UrlMap()[network] && r.txHex == txHex
      ensures r.RpcSendRawTransaction? <==> BitcoindBroadcaster?
      ensures r.RpcSendRawTransaction? ==> r.user == user && r.password == password
    {
      match this
      case ApiBroadcaster(_, m) => ApiPost(m[network], txHex)
      case BitcoindBroadcaster(u, p) => RpcSendRawTransaction(BitcoindUrlMap()[network], u, p, txHex)
    }
  }

  /** bitcoind supports exactly mainnet, testnet and signet, whatever its credentials. */
  lemma BitcoindNetworks(user: Value, password: Value)
    ensures BitcoindBroadcaster(user, password).SupportedNetworks() == {"mainnet", "testnet", "signet"}
    ensures BitcoindBroadcaster(user, password).Name() == "bitcoind"
  {
  }

  /** An API broadcaster supports a network exactly when its map has a URL for it. */
  lemma ApiNetworks(name: string, urlMap: map<Network, string>, network: Network)
    ensures network in ApiBroadcaster(name, urlMap).SupportedNetworks() <==> network in urlMap
  {
  }
}
