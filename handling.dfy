/**
 * BroadcasterHandler.do_event: for each inbound transaction event, the
 * ordered checks — a network tag, the handler's network filter, the
 * broadcaster's supported networks, the validity of the transaction hex —
 * and, only when all pass, one scheduled broadcast.
 */
module Handling {
  import opened Wrappers
  import opened Broadcasters

  /** The filter value that lets every network through. */
  const AnyNetwork: string := "any"

  /**
   * An inbound event: its content (the transaction hex) and the network its
   * `network` tag names, as get_event_network reports it (None when absent).
   */
  datatype Event = Event(content: string, networkTag: Option<string>)

  /** Errors do_event catches and prints, dropping the event. */
  datatype DropReason = MissingNetwork | InvalidTxHex

  /** The error do_event does not catch: it escapes to the caller. */
  datatype UnsupportedNetwork = UnsupportedNetwork(network: Network, broadcaster: string)

  /** What one call of do_event does with one event. */
  datatype Outcome =
    | Ignored
    | Dropped(reason: DropReason)
    | Raised(error: UnsupportedNetwork)
    | Dispatch(txHex: string, network: Network)

  /** The network an event names, or "" when it names none. */
  function TagOf(evt: Event): Network
  {
    if evt.networkTag.Some? then evt.networkTag.value else ""
  }

  datatype Handler = Handler(broadcaster: Broadcaster, network: string)
  {
    /** Whether the handler's filter lets events for `net` through. */
    predicate InScope(net: Network)
    {
      network == AnyNetwork || network == net
    }

    /**
     * do_event, with `isValidTx` standing for util.is_valid_tx. Whatever it
     * dispatches is the event's own content, for the event's own network,
     * which the broadcaster supports and the validator accepted.
     */
    function DoEvent(evt: Event, isValidTx: string -> bool): (o: Outcome)
      ensures o.Dispatch? ==> o.network in broadcaster.SupportedNetworks()
      ensures o.Dispatch? ==> o.txHex == evt.content && isValidTx(o.txHex)
      ensures o.Dispatch? ==> evt.networkTag == Some(o.network) && o.network != ""
    {
      var net := TagOf(evt);
      if net == "" then Dropped(MissingNetwork)
      else if !InScope(net) then Ignored
      else if net !in broadcaster.SupportedNetworks() then Raised(UnsupportedNetwork(net, broadcaster.Name()))
      else if !isValidTx(evt.content) then Dropped(InvalidTxHex)
      else Dispatch(evt.content, net)
    }
  }

  /** A missing or empty tag drops the event, whatever the filter, broadcaster or content. */
  lemma MissingTagDropped(h: Handler, evt: Event, isValidTx: string -> bool)
    requires evt.networkTag.None? || evt.networkTag == Some("")
    ensures h.DoEvent(evt, isValidTx) == Dropped(MissingNetwork)
  {
  }

  /** An event for a network the filter excludes is ignored silently: no error is raised. */
  lemma OutOfScopeIgnored(h: Handler, evt: Event, isValidTx: string -> bool)
    requires TagOf(evt) != "" && h.network != AnyNetwork && h.network != TagOf(evt)
    ensures h.DoEvent(evt, isValidTx) == Ignored
  {
  }

  /**
   * A network in scope but not supported raises UnsupportedNetwork, even when
   * the content is not valid transaction hex: support is checked first.
   */
  lemma UnsupportedRaised(h: Handler, evt: Event, isValidTx: string -> bool)
    requires TagOf(evt) != "" && h.InScope(TagOf(evt))
    requires TagOf(evt) !in h.broadcaster.SupportedNetworks()
    ensures h.DoEvent(evt, isValidTx) == Raised(UnsupportedNetwork(TagOf(evt), h.broadcaster.Name()))
  {
  }

  /** Content the validator rejects is dropped once every network check has passed. */
  lemma InvalidDropped(h: Handler, evt: Event, isValidTx: string -> bool)
    requires TagOf(evt) != "" && h.InScope(TagOf(evt))
    requires TagOf(evt) in h.broadcaster.SupportedNetworks()
    requires !isValidTx(evt.content)
    ensures h.DoEvent(evt, isValidTx) == Dropped(InvalidTxHex)
  {
  }

  /** An event is dispatched exactly when all four checks pass, and then as (content, tag). */
  lemma DispatchExactlyWhenAllPass(h: Handler, evt: Event, isValidTx: string -> bool, txHex: string, net: Network)
    ensures h.DoEvent(evt, isValidTx) == Dispatch(txHex, net) <==>
      && evt.networkTag == Some(net) && net != ""
      && h.InScope(net)
      && net in h.broadcaster.SupportedNetworks()
      && isValidTx(evt.content)
      && txHex == evt.content
  {
  }

  /**
   * The validator is consulted only after the three network checks have
   * passed: before that, two validators give the same outcome.
   */
  lemma ValidatorConsultedLast(h: Handler, evt: Event, v1: string -> bool, v2: string -> bool)
    requires TagOf(evt) == "" || !h.InScope(TagOf(evt)) || TagOf(evt) !in h.broadcaster.SupportedNetworks()
    ensures h.DoEvent(evt, v1) == h.DoEvent(evt, v2)
    ensures !h.DoEvent(evt, v1).Dispatch? && h.DoEvent(evt, v1) != Dropped(InvalidTxHex)
  {
  }

  /** With the filter "any" no event is ever ignored on network grounds. */
  lemma AnyFilterNeverIgnores(b: Broadcaster, evt: Event, isValidTx: string -> bool)
    ensures Handler(b, AnyNetwork).DoEvent(evt, isValidTx) != Ignored
  {
  }

  /** The broadcast a dispatched event leads to targets the URL the map holds for its network. */
  lemma DispatchedRequestDefined(h: Handler, evt: Event, isValidTx: string -> bool)
    requires h.DoEvent(evt, isValidTx).Dispatch?
    ensures var o := h.DoEvent(evt, isValidTx);
      o.network in h.broadcaster.UrlMap() &&
      h.broadcaster.BroadcastHex(o.txHex, o.network).url == h.broadcaster.UrlMap()[TagOf(evt)] &&
      h.broadcaster.BroadcastHex(o.txHex, o.network).txHex == evt.content
  {
  }

  /** A broadcast handed to the event loop: broadcast_hex(tx_hex, network) on a broadcaster. */
  datatype Task = Task(broadcaster: Broadcaster, txHex: string, network: Network)

  /** Whether the task's broadcast_hex call can look up its URL. */
  predicate Runnable(t: Task)
  {
    t.network in t.broadcaster.SupportedNetworks()
  }

  /** The requests a sequence of runnable tasks issue, in order. */
  function RequestsOf(tasks: seq<Task>): (rs: seq<Request>)
    requires forall i :: 0 <= i < |tasks| ==> Runnable(tasks[i])
    ensures |rs| == |tasks|
    ensures forall i :: 0 <= i < |tasks| ==>
      Runnable(tasks[i]) && rs[i] == tasks[i].broadcaster.BroadcastHex(tasks[i].txHex, tasks[i].network)
  {
    if tasks == [] then []
    else
      assert Runnable(tasks[0]);
      [tasks[0].broadcaster.BroadcastHex(tasks[0].txHex, tasks[0].network)] + RequestsOf(tasks[1..])
  }

  /**
   * The asyncio event loop, reduced to the tasks created on it. do_event hands
   * each broadcast to it without waiting; the loop runs them later.
   */
  class EventLoop {
    var scheduled: seq<Task>

    /** Every scheduled broadcast can look up its URL. */
    ghost predicate Valid()
      reads this
    {
      forall i :: 0 <= i < |scheduled| ==> Runnable(scheduled[i])
    }

    constructor ()
      ensures Valid() && scheduled == []
    {
      scheduled := [];
    }

    /**
     * Runs do_event for handler `h` on this loop: schedules at most one
     * broadcast, and passes UnsupportedNetwork on to the caller.
     */
    method HandleEvent(h: Handler, evt: Event, isValidTx: string -> bool) returns (escaped: Option<UnsupportedNetwork>)
      requires Valid()
      modifies this
      ensures Valid()
      ensures var o := h.DoEvent(evt, isValidTx);
        scheduled == old(scheduled) + (if o.Dispatch? then [Task(h.broadcaster, o.txHex, o.network)] else [])
      ensures var o := h.DoEvent(evt, isValidTx);
        escaped == (if o.Raised? then Some(o.error) else None)
    {
      var o := h.DoEvent(evt, isValidTx);
      escaped := None;
      match o {
        case Dispatch(txHex, net) =>
          scheduled := scheduled + [Task(h.broadcaster, txHex, net)];
        case Raised(e) =>
          escaped := Some(e);
        case _ =>
      }
    }

    /** The requests the scheduled broadcasts issue when the loop runs them. */
    function Requests(): (rs: seq<Request>)
      reads this
      requires Valid()
      ensures |rs| == |scheduled|
      ensures forall i :: 0 <= i < |scheduled| ==> rs[i].url == scheduled[i].broadcaster.UrlMap()[scheduled[i].network]
    {
      RequestsOf(scheduled)
    }
  }
}
