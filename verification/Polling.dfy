/** The peer table and PollServer's bookkeeping in it. */
module Polling {
  import opened Bytes
  import opened NodeSpec
  import opened PollingSpec

  class PeerInfo {
    var lastPollLocal: int
    var lastPollRemote: int
    var totalBytesTX: int
    var totalBytesRX: int
    var routingPub: Option<bytes>

    ghost function Value(): PeerState
      reads this
    {
      PeerState(lastPollLocal, lastPollRemote, totalBytesTX, totalBytesRX, routingPub)
    }

    constructor ()
      ensures Value() == NEW_PEER
    {
      lastPollLocal, lastPollRemote, totalBytesTX, totalBytesRX, routingPub := 0, 0, 0, 0, None;
    }
  }

  class PeerTable {
    var table: map<bytes, PeerInfo>

    /** Each host has an entry of its own. */
    ghost predicate Valid()
      reads this
    {
      forall a, b | a in table && b in table && a != b :: table[a] != table[b]
    }

    ghost function Entry(host: bytes): PeerState
      reads this, table.Values
    {
      if host in table then table[host].Value() else NEW_PEER
    }

    constructor ()
      ensures Valid() && table == map[]
    {
      table := map[];
    }

    /** The host's entry becomes what the exchange makes of it; all other entries stay. */
    method PollServer(host: bytes, x: Exchange) returns (done: bool, failed: bool)
      requires Valid()
      modifies this, table.Values
      ensures Valid() && table.Keys == old(table.Keys) + {host}
      ensures forall h | h in old(table) :: table[h] == old(table[h])
      ensures host !in old(table) ==> fresh(table[host])
      ensures var r := Poll(old(Entry(host)), x);
        Entry(host) == r.peer && done == r.done && failed == r.failed
      ensures forall h | h in old(table) && h != host :: Entry(h) == old(Entry(h))
    {
      if host !in table {
        var info := new PeerInfo();
        assert forall h | h in table :: table[h] in table.Values;
        table := table[host := info];
      }
      var peer := table[host];
      assert peer in table.Values && peer.Value() == old(Entry(host));
      done, failed := Exchanged(peer, x);
      assert forall h | h in old(table) && h != host :: table[h] != peer;
    }

    method Exchanged(peer: PeerInfo, x: Exchange) returns (done: bool, failed: bool)
      modifies peer
      ensures var r := Poll(old(peer.Value()), x);
        peer.Value() == r.peer && done == r.done && failed == r.failed
    {
      if peer.routingPub == None {
        if !x.id.KeyValue? {
          return false, x.id.RpcError?;
        }
        peer.routingPub := Some(x.id.key);
      }
      // Pickup Local
      var toRemote := x.pickupLocal(peer.routingPub.value, peer.lastPollLocal);
      if toRemote.None? {
        return false, true;
      }
      // Pickup Remote
      var toLocalRaw := x.pickupRemote(peer.lastPollRemote);
      if toLocalRaw.RpcError? {
        return false, true;
      }
      var toLocal := None;
      if !toLocalRaw.NilValue? {
        if !toLocalRaw.BundleValue? {
          return false, false;
        }
        toLocal := Some(toLocalRaw.bundle);
        peer.totalBytesRX := peer.totalBytesRX + |toLocal.value.data|;
      }
      // Dropoff Remote
      if |toRemote.value.data| > 0 {
        if !x.dropoffRemote(toRemote.value) {
          return false, true;
        }
        if peer.totalBytesTX > 0 {
          peer.lastPollLocal := toRemote.value.time;
        }
        peer.totalBytesTX := peer.totalBytesTX + |toRemote.value.data|;
      }
      // Dropoff Local
      if toLocal.Some? && |toLocal.value.data| > 0 {
        if !x.dropoffLocal(toLocal.value) {
          return false, true;
        }
        if peer.totalBytesRX > 0 {
          peer.lastPollRemote := toLocal.value.time;
        }
      }
      return true, false;
    }
  }
}
