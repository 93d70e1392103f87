/** One push/pull exchange with a peer, as a function of what each call returned. */
module PollingSpec {
  import opened Bytes
  import opened NodeSpec

  /** What an RPC gives back: an error, or a value of some type. */
  datatype Reply = RpcError | NilValue | KeyValue(key: bytes) | BundleValue(bundle: Bundle) | OtherValue

  /** What the peer table remembers of a host. */
  datatype PeerState = PeerState(
    lastPollLocal: int, lastPollRemote: int, totalBytesTX: int, totalBytesRX: int, routingPub: Option<bytes>)

  const NEW_PEER := PeerState(0, 0, 0, 0, None)

  /** The calls PollServer makes, as far as their results matter. */
  datatype Exchange = Exchange(
    id: Reply,
    pickupLocal: (bytes, int) -> Option<Bundle>,  // from the remote's key and the local cursor
    pickupRemote: int -> Reply,                   // from the remote cursor
    dropoffRemote: Bundle -> bool,                // false is an error
    dropoffLocal: Bundle -> bool)

  /** The two values PollServer returns, and the bundles that were dropped off without an error. */
  datatype Polled = Polled(peer: PeerState, done: bool, failed: bool, pushed: Option<Bundle>, pulled: Option<Bundle>)

  function Poll(p: PeerState, x: Exchange): Polled {
    if p.routingPub.None? && !x.id.KeyValue? then
      Polled(p, false, x.id.RpcError?, None, None)
    else
      var p1 := if p.routingPub.None? then p.(routingPub := Some(x.id.key)) else p;
      match x.pickupLocal(p1.routingPub.value, p1.lastPollLocal)
      case None => Polled(p1, false, true, None, None)
      case Some(toRemote) =>
        match x.pickupRemote(p1.lastPollRemote)
        case RpcError => Polled(p1, false, true, None, None)
        case NilValue => Push(p1, x, toRemote, None)
        case BundleValue(toLocal) =>
          Push(p1.(totalBytesRX := p1.totalBytesRX + |toLocal.data|), x, toRemote, Some(toLocal))
        case _ => Polled(p1, false, false, None, None)
  }

  /** Dropoff Remote: the cursor follows only from the second bundle on. */
  function Push(p: PeerState, x: Exchange, toRemote: Bundle, toLocal: Option<Bundle>): Polled {
    if toRemote.data == [] then Pull(p, x, None, toLocal)
    else if !x.dropoffRemote(toRemote) then Polled(p, false, true, None, None)
    else
      var cursor := if p.totalBytesTX > 0 then toRemote.time else p.lastPollLocal;
      Pull(p.(lastPollLocal := cursor, totalBytesTX := p.totalBytesTX + |toRemote.data|), x, Some(toRemote), toLocal)
  }

  /** Dropoff Local. */
  function Pull(p: PeerState, x: Exchange, pushed: Option<Bundle>, toLocal: Option<Bundle>): Polled {
    if toLocal.None? || toLocal.value.data == [] then Polled(p, true, false, pushed, None)
    else if !x.dropoffLocal(toLocal.value) then Polled(p, false, true, pushed, None)
    else
      var cursor := if p.totalBytesRX > 0 then toLocal.value.time else p.lastPollRemote;
      Polled(p.(lastPollRemote := cursor), true, false, pushed, toLocal)
  }
}
