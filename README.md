# Transaction broadcaster: admission, routing and start-up configuration

This project models the core of a relay-to-blockchain transaction broadcaster in Dafny. The broadcaster listens on nostr relays for events that carry a raw Bitcoin transaction as hex. Each event goes to one handler per enabled output service (the mempool API, the blockstream API, a local bitcoind). The handler:

1. requires the event to carry a network tag;
2. applies its network filter (`any` or one network);
3. requires the broadcaster to support that network (to have a URL for it);
4. requires the content to parse as a transaction.

Only then does it schedule one `broadcast_hex(tx_hex, network)` on the event loop. At start-up, the options are assembled in three layers: built-in defaults, then the TOML file, then the command line. The comma-separated output list is checked, and one handler is built per enabled service, in a fixed order.

Modules:

- `Wrappers` (wrappers.dfy): `Option` and `Result`.
- `Values` (values.dfy): the option dictionary's values and Python truthiness.
- `Text` (text.dfy): `str.split` and `str.join` on one separator, with their round trips.
- `Broadcasters` (broadcasters.dfy): the API and bitcoind broadcasters, their URL maps, `supported_networks` and `broadcast_hex`.
- `Handling` (handling.dfy): `do_event`, written as the function `Handler.DoEvent`, which returns one `Outcome`:
  - `Ignored`;
  - `Dropped(MissingNetwork)` or `Dropped(InvalidTxHex)`: caught and printed;
  - `Raised(UnsupportedNetwork)`: escapes to the caller;
  - `Dispatch(content, network)`.

  The class `EventLoop` records the broadcasts handed to `asyncio.create_task`. Its invariant says every recorded broadcast can look up its URL.
- `Config` (config.dfy): `get_args` as a method that updates the dictionary layer by layer and checks the outputs in a loop. The function `Assemble` specifies it, and lemmas about `Assemble` give the properties.
- `Startup` (startup.dfy): the handler list `main` builds.

Points of the code's behaviour that the model keeps as written:

- `do_event` checks the tag, then the filter, then the broadcaster's support, and the transaction's validity only last (broadcaster.py:114-129). An unsupported network with invalid hex therefore raises `UnsupportedNetwork`, not `InvalidTxHex`.
- `UnsupportedNetwork` escapes `do_event`, because the `except` at broadcaster.py:135 catches only `InvalidTxHex` and `ValueError`.
- `main` never passes the configured network to the handlers (broadcaster.py:236-250). Every handler keeps the default filter `any` (broadcaster.py:98), so the `--network` option only changes the start-up message (`Startup.CreateHandlers`, `Handling.AnyFilterNeverIgnores`).
- Each broadcaster supports exactly the keys of its URL map (broadcaster.py:50-51). The two API URL maps come from a module that is not part of this model, so they are parameters, and no particular set of networks is assumed for them.

## Model

| member | source | states |
|---|---|---|
| `Text.Split` | broadcaster.py:203 | `str.split(',')` always yields at least one piece |
| `Text.JoinSplit` | broadcaster.py:203 | joining the pieces of a split with the separator gives back the original string |
| `Text.SplitPiecesFree` | broadcaster.py:203 | no output-list entry contains a comma |
| `Text.SplitJoin` | broadcaster.py:203 | splitting a join of comma-free pieces gives back the pieces, so the split loses nothing |
| `Broadcasters.Broadcaster.BroadcastHex` | broadcaster.py:68-93 | `broadcast_hex` may only be called for a supported network; its request goes to `url_map[network]` with the given hex; bitcoind's request is an RPC call with its user and password |
| `Broadcasters.BitcoindNetworks` | broadcaster.py:77-87 | bitcoind's name is `bitcoind` and it supports exactly mainnet, testnet and signet |
| `Broadcasters.ApiNetworks` | broadcaster.py:50-51 | an API broadcaster supports a network iff its URL map has that key |
| `Handling.Handler.DoEvent` | broadcaster.py:102-136 | whatever it dispatches is the event's own content, for the event's own non-empty tag, for a network the broadcaster supports, and the validator accepted that content |
| `Handling.MissingTagDropped` | broadcaster.py:114-116 | a missing or empty network tag drops the event with `MissingNetwork`, whatever the filter, broadcaster or validator |
| `Handling.OutOfScopeIgnored` | broadcaster.py:119 | a tagged event whose network the filter excludes is ignored silently: no error, no dispatch |
| `Handling.UnsupportedRaised` | broadcaster.py:121-123 | an in-scope network the broadcaster lacks raises `UnsupportedNetwork` (network, broadcaster name), even for invalid hex |
| `Handling.InvalidDropped` | broadcaster.py:126-129 | content the validator rejects, once the network checks pass, is dropped with `InvalidTxHex` |
| `Handling.DispatchExactlyWhenAllPass` | broadcaster.py:119-133 | the outcome is `Dispatch(tx, net)` iff the tag is `net` and non-empty, the filter admits `net`, `net` is supported, the content is valid, and `tx` is the content |
| `Handling.ValidatorConsultedLast` | broadcaster.py:119-129 | until the three network checks pass, the outcome does not depend on the validator, and it is neither a dispatch nor `InvalidTxHex` |
| `Handling.AnyFilterNeverIgnores` | broadcaster.py:119 | a handler whose filter is `any` never ignores an event |
| `Handling.DispatchedRequestDefined` | broadcaster.py:132-133 | the broadcast a dispatch schedules can look up `url_map` for the event's tag and sends the event's content |
| `Handling.RequestsOf` | broadcaster.py:68-93 | runnable tasks yield one request each, in order, each being that task's `broadcast_hex` |
| `Handling.EventLoop.HandleEvent` | broadcaster.py:112-136 | exactly one task is appended when `do_event` dispatches, none otherwise; `UnsupportedNetwork` is passed to the caller; every scheduled task stays runnable |
| `Handling.EventLoop.Requests` | broadcaster.py:68-93 | every scheduled broadcast's URL is its broadcaster's `url_map[network]`, which is always defined |
| `Config.Defaults` | broadcaster.py:183-190 | the defaults hold exactly the six command-line options |
| `Config.CommandLineAsWritten` | broadcaster.py:148-169 | the parsed command line holds exactly the six options |
| `Config.CommandLine` | broadcaster.py:148-169 | the same, for the corrected `--network` fallback |
| `Config.Layered` | broadcaster.py:182-196 | the layered dictionary holds the six options plus every TOML key |
| `Config.LayeredAsWritten` | broadcaster.py:182-196 | the same key set for the as-written command line |
| `Config.LayeredPrecedence` | broadcaster.py:172-196 | the command line wins over the TOML file, which wins over the defaults; extra TOML keys pass through |
| `Config.TomlNetworkLost` | broadcaster.py:150-151 | as written, a TOML `network = "testnet"` with no `-n` ends as `any`; corrected, it stays `testnet` |
| `Config.AsWrittenDiffersOnlyInNetwork` | broadcaster.py:148-165 | the as-written and corrected command lines agree on every key except `network` |
| `Config.NoRejectionIffAllAccepted` | broadcaster.py:204-208 | no output entry is rejected iff every entry is a known service, with credentials for bitcoind |
| `Config.RejectionIsFirstFailure` | broadcaster.py:204-208 | a rejection is the error of the first failing entry; every earlier entry passes |
| `Config.AssembleSucceeds` | broadcaster.py:202-216 | `get_args` succeeds iff the output string's entries are all accepted; the result is then the layered dictionary with `output` split, has every key `main` reads, names only known services, and names bitcoind only with a truthy user and password |
| `Config.AssembleFailsOnFirstRejection` | broadcaster.py:203-208 | a failed output check reports the first rejected entry: an unknown service, or bitcoind without credentials |
| `Config.GetArgs` | broadcaster.py:172-216 | the in-place dictionary updates and the checking loop compute exactly `Assemble` |
| `Startup.Enabled` | broadcaster.py:236-248 | a service is enabled iff it is one of the three and the output list names it |
| `Startup.EnabledKeepsOrder` | broadcaster.py:235-250 | enabling keeps an order that is strictly increasing in rank |
| `Startup.EnabledServices` | broadcaster.py:235-250 | the enabled services are the named ones of mempool, blockstream, bitcoind, in that order |
| `Startup.ServiceBroadcaster` | broadcaster.py:237-250 | the broadcaster built for a service carries that service's name |
| `Startup.HandlersFor` | broadcaster.py:235-250 | one handler per service, in order, with that service's broadcaster and the filter `any` |
| `Startup.HandlersInServiceOrder` | broadcaster.py:235-250 | every handler filters with `any`; a service has a handler iff the output list names it; handlers come in the order mempool, blockstream, bitcoind |
| `Startup.CreateHandlers` | broadcaster.py:219-250 | `main`'s conditional appends build exactly the handlers for the enabled services: one per named service (a service named twice still gets one handler), in the fixed order, each with the filter `any`, whatever network is configured |

## Findings

| source | as written | input that shows it | evidently intended | confidence | as-written member | corrected member |
|---|---|---|---|---|---|---|
| broadcaster.py:150 | `--network` falls back to the constant `'any'`. The other options fall back to `args[...]`, and the help text advertises `args["network"]` as the default. | TOML file with `network = "testnet"` and no `-n` on the command line: `get_args` returns `network == 'any'` (lemma `Config.TomlNetworkLost`, about `Config.LayeredAsWritten`) | the TOML (or default) network survives when the command line gives none | medium, not executed | `Config.CommandLineAsWritten` | `Config.CommandLine` |

`Config.Layered`, `Config.Assemble` and `Config.GetArgs` use the corrected command line. `Config.AsWrittenDiffersOnlyInNetwork` shows that nothing else changes. `main` only prints the network, so the handlers are the same either way.

## Left out

- Config.GetArgs: returns the corrected network value. With a TOML `network` and no `-n`, it keeps the TOML value where broadcaster.py:150 and 196 give `'any'`; `Config.Assemble` and `Config.Layered` do the same. `Config.LayeredAsWritten` is the as-written layering, and `Config.AsWrittenDiffersOnlyInNetwork` shows every other key agrees.
- Transaction parsing: `is_valid_tx` is the parameter `isValidTx`, an arbitrary total predicate. bitcoinlib's parser is not part of this model.
- `get_event_network` is not part of this model. An event carries its result as `networkTag`, and `None` means no tag.
- The network calls `post_hex_tx_api` and `sendrawtransaction_bitcoind` are not part of this model. `broadcast_hex` yields the request it would send (`Request`).
- The URL maps `MEMPOOL_URL_MAP` and `BLOCKSTREAM_URL_MAP` are not part of this model. They are arbitrary maps passed to `Startup.CreateHandlers`.
- `load_toml` is not part of this model. Its result is the parameter `toml`. Its values are modelled as strings, booleans, `None` or lists of strings; other TOML types are not modelled.
- `ConfigError` is the `ArgsError` cases `InvalidOutput` and `CredentialsRequired`. A non-string output option makes `.split` raise `AttributeError`; that is `OutputNotString`.
- argparse is left out: parsing, help, the exit on a bad `--network` choice, and `store_true`. The options written on the command line are the parameter `given`, restricted to the six defined options and the network choices.
- The asyncio tasks are only recorded, not run. Their completion, their results and errors are not modelled.
- `ClientPool`, the relay subscription, the sleep loop and splitting the relay list (broadcaster.py:222, 252-264) are relay I/O and are not modelled.
- The effect of an escaping `UnsupportedNetwork` on the other handlers of the same event depends on the relay client library, which is not part of this model.
- Logging, the debug flag, `print`, and the password-masked copy `ret_out` (broadcaster.py:199-200, 210-214, 258-259) are output only.
- poster.py (key creation, signing, publishing) and main.py (a listener that prints events) are outside the core.
