/** Every run of polls between two nodes, with any call failing, and queues growing and being flushed meanwhile. */
module PollingProofs {
  import opened Bytes
  import opened OutboxSpec
  import opened NodeSpec
  import opened PollingSpec
  import Reassembly

  // One poll

  /** The bundles that x offers at p's cursors carry these times, and are empty just if said so. */
  ghost predicate Offers(p: PeerState, x: Exchange, localTime: int, localEmpty: bool, remoteTime: int,
                         remoteEmpty: bool) {
    && (forall key: bytes ::
          var b := x.pickupLocal(key, p.lastPollLocal);
          b.Some? ==> b.value.time == localTime && (b.value.data == [] <==> localEmpty))
    && (var r := x.pickupRemote(p.lastPollRemote);
        r.BundleValue? ==> r.bundle.time == remoteTime && (r.bundle.data == [] <==> remoteEmpty))
  }

  // What a poll's calls decide

  function Known(p: PeerState, x: Exchange): Option<bytes> {
    if p.routingPub.Some? then p.routingPub else if x.id.KeyValue? then Some(x.id.key) else None
  }

  /** The bundle picked up for the peer, if the peer's key is known or given and the local Pickup succeeds. */
  function Up(p: PeerState, x: Exchange): Option<Bundle> {
    if Known(p, x).Some? then x.pickupLocal(Known(p, x).value, p.lastPollLocal) else None
  }

  /** The bundle picked up at the peer; None for no value at all. */
  function Down(p: PeerState, x: Exchange): Option<Bundle> {
    var r := x.pickupRemote(p.lastPollRemote);
    if r.BundleValue? then Some(r.bundle) else None
  }

  /** The poll gets as far as having both bundles. */
  predicate BothPicked(p: PeerState, x: Exchange) {
    Up(p, x).Some? && (x.pickupRemote(p.lastPollRemote).NilValue? || Down(p, x).Some?)
  }

  predicate Holds(b: Option<Bundle>) {
    b.Some? && b.value.data != []
  }

  predicate PushTaken(p: PeerState, x: Exchange) {
    BothPicked(p, x) && (Holds(Up(p, x)) ==> x.dropoffRemote(Up(p, x).value))
  }

  predicate PullTaken(p: PeerState, x: Exchange) {
    PushTaken(p, x) && (Holds(Down(p, x)) ==> x.dropoffLocal(Down(p, x).value))
  }

  /** A poll is done exactly if each call it needs succeeds: the key, both Pickups, the Dropoffs of what they hold. */
  lemma PollDoneIff(p: PeerState, x: Exchange)
    ensures Poll(p, x).done <==>
      && (p.routingPub.Some? || x.id.KeyValue?)
      && x.pickupLocal(if p.routingPub.Some? then p.routingPub.value else x.id.key, p.lastPollLocal).Some?
      && (x.pickupRemote(p.lastPollRemote).NilValue? || x.pickupRemote(p.lastPollRemote).BundleValue?)
      && (Holds(Up(p, x)) ==> x.dropoffRemote(Up(p, x).value))
      && (Holds(Down(p, x)) ==> x.dropoffLocal(Down(p, x).value))
  {}

  /** It reports an error exactly if one of the calls it comes to returns one; not on a value of a wrong type. */
  lemma PollFailedIff(p: PeerState, x: Exchange)
    ensures Poll(p, x).failed <==>
      || (p.routingPub.None? && x.id.RpcError?)
      || (Known(p, x).Some? && Up(p, x).None?)
      || (Up(p, x).Some? && x.pickupRemote(p.lastPollRemote).RpcError?)
      || (BothPicked(p, x) && Holds(Up(p, x)) && !x.dropoffRemote(Up(p, x).value))
      || (PushTaken(p, x) && Holds(Down(p, x)) && !x.dropoffLocal(Down(p, x).value))
  {}

  /**
   * What goes over, and what the table then holds, for any results of the calls: each bundle that is not empty goes
   * over if its Dropoff is reached and succeeds; the push cursor follows from the second pushed bundle on.
   */
  lemma PollTransfers(p: PeerState, x: Exchange)
    ensures var r := Poll(p, x);
      && r.pushed == (if PushTaken(p, x) && Holds(Up(p, x)) then Up(p, x) else None)
      && r.pulled == (if PullTaken(p, x) && Holds(Down(p, x)) then Down(p, x) else None)
      && r.peer == PeerState(
        if r.pushed.Some? && p.totalBytesTX > 0 then Up(p, x).value.time else p.lastPollLocal,
        if r.pulled.Some? && p.totalBytesRX + |Down(p, x).value.data| > 0 then Down(p, x).value.time
        else p.lastPollRemote,
        p.totalBytesTX + (if r.pushed.Some? then |Up(p, x).value.data| else 0),
        p.totalBytesRX + (if BothPicked(p, x) && Down(p, x).Some? then |Down(p, x).value.data| else 0),
        Known(p, x))
  {}

  lemma PollEffect(p: PeerState, x: Exchange, localTime: int, localEmpty: bool, remoteTime: int, remoteEmpty: bool)
    requires p.totalBytesRX >= 0 && p.totalBytesTX >= 0
    requires Offers(p, x, localTime, localEmpty, remoteTime, remoteEmpty)
    ensures var r := Poll(p, x);
      && (r.pushed.Some? ==> !localEmpty && r.peer.totalBytesTX > p.totalBytesTX)
      && (r.pushed.None? ==> r.peer.totalBytesTX == p.totalBytesTX)
      && r.peer.lastPollLocal == (if r.pushed.Some? && p.totalBytesTX > 0 then localTime else p.lastPollLocal)
      && (r.pulled.Some? ==> !remoteEmpty)
      && r.peer.lastPollRemote == (if r.pulled.Some? then remoteTime else p.lastPollRemote)
      && r.peer.totalBytesRX >= 0
      && (r.done ==> !r.failed && (r.pushed.Some? <==> !localEmpty))
      && (r.done && x.pickupRemote(p.lastPollRemote).BundleValue? ==> (r.pulled.Some? <==> !remoteEmpty))
  {}

  // The system

  datatype Link = Link(local: Config, remote: Config, pubsrv: bytes, localLimit: int, remoteLimit: int)

  /**
   * Both queues with the last time each one's clock gave; the pages the remote accepted, and those given to a
   * Dropoff that succeeded locally, oldest first.
   */
  datatype Sys = Sys(
    peer: PeerState,
    local: seq<OutboxMsg>, localClock: int,
    remote: seq<OutboxMsg>, remoteClock: int,
    accepted: seq<seq<OutboxMsg>>, given: seq<seq<OutboxMsg>>)

  const START := Sys(NEW_PEER, [], 0, [], 0, [], [])

  datatype Fate = Accepted | Rejected | AcceptedWithError

  /** How the calls of one poll go; None lets the remote Pickup answer with its page. */
  datatype Faults = Faults(id: Reply, remotePickup: Option<Reply>, fate: Fate, localDropoffFails: bool, tick: nat)

  datatype Event =
    | AppendLocal(m: OutboxMsg)
    | AppendRemote(m: OutboxMsg)
    | FlushLocal(cutoff: int)
    | FlushRemote(cutoff: int)
    | PollServer(faults: Faults)

  function Queue(q: seq<OutboxMsg>, tick: nat): State {
    NodeSpec.State([], q, Reassembly.EMPTY.rx, tick)
  }

  function ExchangeOf(link: Link, sys: Sys, f: Faults): Exchange {
    Exchange(
      f.id,
      (key, since) => Pickup(link.local, Queue(sys.local, f.tick), key, since, link.localLimit, []),
      since => if f.remotePickup.Some? then f.remotePickup.value
               else match Pickup(link.remote, Queue(sys.remote, f.tick), link.pubsrv, since, link.remoteLimit, [])
                    case None => RpcError
                    case Some(b) => BundleValue(b),
      _ => f.fate.Accepted?,
      _ => !f.localDropoffFails)
  }

  function LocalPage(link: Link, sys: Sys): seq<OutboxMsg> {
    PageOf(sys.local, sys.peer.lastPollLocal, link.localLimit, [])
  }

  function RemotePage(link: Link, sys: Sys): seq<OutboxMsg> {
    PageOf(sys.remote, sys.peer.lastPollRemote, link.remoteLimit, [])
  }

  /** Whether the poll gets as far as offering its page to the remote. */
  predicate Offered(link: Link, sys: Sys, f: Faults) {
    Poll(sys.peer, ExchangeOf(link, sys, f).(dropoffRemote := _ => true)).pushed.Some?
  }

  function Step(link: Link, sys: Sys, e: Event): Sys {
    match e
    case AppendLocal(m) => sys.(local := sys.local + [m], localClock := m.time)
    case AppendRemote(m) => sys.(remote := sys.remote + [m], remoteClock := m.time)
    case FlushLocal(c) => sys.(local := Flushed(sys.local, c))
    case FlushRemote(c) => sys.(remote := Flushed(sys.remote, c))
    case PollServer(f) =>
      var r := Poll(sys.peer, ExchangeOf(link, sys, f));
      sys.(peer := r.peer,
           accepted := if Offered(link, sys, f) && !f.fate.Rejected? then sys.accepted + [LocalPage(link, sys)]
                       else sys.accepted,
           given := if r.pulled.Some? then sys.given + [RemotePage(link, sys)] else sys.given)
  }

  /** Clocks are strictly increasing; a broken remote Pickup does not answer with a made-up bundle. */
  ghost predicate Enabled(sys: Sys, e: Event) {
    match e
    case AppendLocal(m) => m.time > sys.localClock
    case AppendRemote(m) => m.time > sys.remoteClock
    case PollServer(f) => f.remotePickup.Some? ==> !f.remotePickup.value.BundleValue?
    case _ => true
  }

  ghost predicate Run(link: Link, states: seq<Sys>, es: seq<Event>) {
    && |states| == |es| + 1 && states[0] == START
    && forall i | 0 <= i < |es| :: Enabled(states[i], es[i]) && states[i + 1] == Step(link, states[i], es[i])
  }

  ghost predicate CipherNonEmpty(cfg: Config) {
    forall key: bytes, x: bytes, n: nat :: cfg.encrypt(key, x, n).Some? ==> cfg.encrypt(key, x, n).value != []
  }

  lemma PickupOffers(cfg: Config, st: State, key: bytes, since: int, limit: int)
    requires CipherNonEmpty(cfg)
    ensures var b, page := Pickup(cfg, st, key, since, limit, []), PageOf(st.outbox, since, limit, []);
      b.Some? ==> b.value.time == PageTime(page, since) && (b.value.data == [] <==> page == [])
  {
    hide PageOf;
  }

  lemma ExchangeOffers(link: Link, sys: Sys, f: Faults)
    requires CipherNonEmpty(link.local) && CipherNonEmpty(link.remote) && Enabled(sys, PollServer(f))
    ensures Offers(sys.peer, ExchangeOf(link, sys, f),
                   PageTime(LocalPage(link, sys), sys.peer.lastPollLocal), LocalPage(link, sys) == [],
                   PageTime(RemotePage(link, sys), sys.peer.lastPollRemote), RemotePage(link, sys) == [])
  {
    hide PageOf, PageTime, Pickup;
    forall key: bytes {
      PickupOffers(link.local, Queue(sys.local, f.tick), key, sys.peer.lastPollLocal, link.localLimit);
    }
    PickupOffers(link.remote, Queue(sys.remote, f.tick), link.pubsrv, sys.peer.lastPollRemote, link.remoteLimit);
  }

  // Coverage

  ghost predicate InSome(pages: seq<seq<OutboxMsg>>, m: OutboxMsg) {
    exists i :: 0 <= i < |pages| && m in pages[i]
  }

  /** No message of q at or below the cursor was missing from every page. */
  ghost predicate Covered(q: seq<OutboxMsg>, cursor: int, pages: seq<seq<OutboxMsg>>) {
    forall m | m in q && m.time <= cursor :: InSome(pages, m)
  }

  ghost predicate Timed(q: seq<OutboxMsg>, cursor: int, clock: int) {
    Increasing(q) && 0 <= cursor <= clock && forall m | m in q :: 0 < m.time <= clock
  }

  ghost predicate Invariant(sys: Sys) {
    && Timed(sys.local, sys.peer.lastPollLocal, sys.localClock)
    && Timed(sys.remote, sys.peer.lastPollRemote, sys.remoteClock)
    && sys.peer.totalBytesTX >= 0 && sys.peer.totalBytesRX >= 0
    && Covered(sys.local, sys.peer.lastPollLocal, sys.accepted)
    && Covered(sys.remote, sys.peer.lastPollRemote, sys.given)
  }

  lemma {:induction false} NewerHas(q: seq<OutboxMsg>, since: int, m: OutboxMsg)
    requires m in q && since < m.time
    ensures m in Newer(q, since, [])
  {
    if m == q[0] {
    } else {
      assert m in q[1..];
      NewerHas(q[1..], since, m);
    }
  }

  /** A page holds every message between the cursor and the time it returns. */
  lemma PageCovers(q: seq<OutboxMsg>, since: int, limit: int, m: OutboxMsg)
    requires Increasing(q) && m in q
    requires since < m.time <= PageTime(PageOf(q, since, limit, []), since)
    ensures m in PageOf(q, since, limit, [])
  {
    hide Newer, Page;
    var ms, p := Newer(q, since, []), PageOf(q, since, limit, []);
    NewerHas(q, since, m);
    NewerIncreasing(q, since, []);
    var j :| 0 <= j < |ms| && ms[j] == m;
    assert p[|p| - 1] == ms[|p| - 1];
    assert j < |p| && p[j] == m;
  }

  lemma PageMembers(q: seq<OutboxMsg>, since: int, limit: int)
    ensures var p := PageOf(q, since, limit, []);
      && (forall m | m in p :: m in q && since < m.time)
      && since <= PageTime(p, since)
  {
    hide Page;
    var ms, p := Newer(q, since, []), PageOf(q, since, limit, []);
    forall m | m in p ensures m in q && since < m.time {
      var i :| 0 <= i < |p| && p[i] == m;
      assert ms[i] == m && ms[i] in ms;
    }
    if p != [] { assert p[|p| - 1] in p; }
  }

  lemma InSomeMore(pages: seq<seq<OutboxMsg>>, p: seq<OutboxMsg>, m: OutboxMsg)
    requires InSome(pages, m) || m in p
    ensures InSome(pages + [p], m)
  {
    var all := pages + [p];
    if InSome(pages, m) {
      var i :| 0 <= i < |pages| && m in pages[i];
      assert m in all[i];
    } else {
      assert m in all[|pages|];
    }
  }

  /** Moving the cursor to the time of a page that is added keeps everything covered. */
  lemma PageKeepsCovered(q: seq<OutboxMsg>, cursor: int, clock: int, limit: int, pages: seq<seq<OutboxMsg>>,
                         cursor': int)
    requires Timed(q, cursor, clock) && Covered(q, cursor, pages)
    requires cursor' == cursor || cursor' == PageTime(PageOf(q, cursor, limit, []), cursor)
    ensures cursor <= cursor' && Timed(q, cursor', clock)
    ensures Covered(q, cursor', pages + [PageOf(q, cursor, limit, [])])
  {
    hide PageOf;
    var p := PageOf(q, cursor, limit, []);
    PageMembers(q, cursor, limit);
    if p != [] { assert p[|p| - 1] in p; }
    forall m | m in q && m.time <= cursor' ensures InSome(pages + [p], m) {
      if m.time > cursor { PageCovers(q, cursor, limit, m); }
      InSomeMore(pages, p, m);
    }
  }

  lemma {:induction false} FlushPassMembers(q: seq<OutboxMsg>, c: int)
    ensures forall m | m in FlushPass(q, c) :: m in q
  {
    if q == [] {
    } else if !Old(q[0], c) {
      FlushPassMembers(q[1..], c);
    } else if |q| > 1 {
      FlushPassMembers(q[2..], c);
    }
  }

  lemma IncreasingFirst(x: OutboxMsg, q: seq<OutboxMsg>)
    requires Increasing(q) && forall m | m in q :: x.time < m.time
    ensures Increasing([x] + q)
  {
    assert forall i | 0 <= i < |q| :: q[i] in q;
  }

  lemma IncreasingRest(q: seq<OutboxMsg>, n: nat)
    requires Increasing(q) && 0 < n <= |q|
    ensures Increasing(q[n..]) && forall m | m in q[n..] :: q[n - 1].time < m.time
  {}

  lemma {:induction false} FlushPassIncreasing(q: seq<OutboxMsg>, c: int)
    requires Increasing(q)
    ensures Increasing(FlushPass(q, c))
  {
    hide Increasing;
    if q == [] {
      assert Increasing([]) by { NothingIncreasing(); }
    } else if |q| == 1 || !Old(q[0], c) {
      IncreasingRest(q, 1);
      FlushPassIncreasing(q[1..], c);
      FlushPassMembers(q[1..], c);
      IncreasingFirst(q[0], FlushPass(q[1..], c));
      NothingIncreasing();
    } else {
      IncreasingRest(q, 2);
      FlushPassIncreasing(q[2..], c);
      FlushPassMembers(q[2..], c);
      IncreasingFirst(q[1], FlushPass(q[2..], c));
    }
  }

  lemma NothingIncreasing()
    ensures Increasing([])
  {}

  lemma FlushKeeps(q: seq<OutboxMsg>, c: int, cursor: int, clock: int, pages: seq<seq<OutboxMsg>>)
    requires Timed(q, cursor, clock) && Covered(q, cursor, pages)
    ensures Timed(Flushed(q, c), cursor, clock) && Covered(Flushed(q, c), cursor, pages)
  {
    hide FlushPass, InSome;
    FlushPassMembers(q, c);
    FlushPassIncreasing(q, c);
  }

  lemma AppendKeeps(q: seq<OutboxMsg>, m: OutboxMsg, cursor: int, clock: int, pages: seq<seq<OutboxMsg>>)
    requires Timed(q, cursor, clock) && Covered(q, cursor, pages) && m.time > clock
    ensures Timed(q + [m], cursor, m.time) && Covered(q + [m], cursor, pages)
  {
    hide InSome;
    assert forall x :: x in q + [m] <==> x in q || x == m;
  }

  lemma PollFacts(link: Link, sys: Sys, f: Faults)
    requires CipherNonEmpty(link.local) && CipherNonEmpty(link.remote) && Enabled(sys, PollServer(f))
    requires sys.peer.totalBytesTX >= 0 && sys.peer.totalBytesRX >= 0
    ensures var p, r := sys.peer, Poll(sys.peer, ExchangeOf(link, sys, f));
      && (r.pushed.Some? <==> Offered(link, sys, f) && f.fate.Accepted?)
      && (Offered(link, sys, f) ==> LocalPage(link, sys) != [])
      && (r.pushed.Some? ==> r.peer.totalBytesTX > p.totalBytesTX)
      && (r.pushed.None? ==> r.peer.totalBytesTX == p.totalBytesTX)
      && r.peer.lastPollLocal == (if r.pushed.Some? && p.totalBytesTX > 0
                                  then PageTime(LocalPage(link, sys), p.lastPollLocal) else p.lastPollLocal)
      && r.peer.lastPollRemote == (if r.pulled.Some?
                                   then PageTime(RemotePage(link, sys), p.lastPollRemote) else p.lastPollRemote)
      && r.peer.totalBytesRX >= 0
  {
    hide LocalPage, RemotePage, PageTime, Offers;
    ExchangeOffers(link, sys, f);
    var x, lt, rt := ExchangeOf(link, sys, f), PageTime(LocalPage(link, sys), sys.peer.lastPollLocal),
                     PageTime(RemotePage(link, sys), sys.peer.lastPollRemote);
    var le, re := LocalPage(link, sys) == [], RemotePage(link, sys) == [];
    var yes := x.(dropoffRemote := _ => true);
    OffersIgnoreDropoff(sys.peer, x, yes, lt, le, rt, re);
    hide ExchangeOf;
    PollEffect(sys.peer, x, lt, le, rt, re);
    PollEffect(sys.peer, yes, lt, le, rt, re);
    PushedIff(sys.peer, x, yes, f.fate.Accepted?) by {
      assert forall b: Bundle :: x.dropoffRemote(b) == f.fate.Accepted? by { DropoffFate(link, sys, f); }
    }
  }

  lemma DropoffFate(link: Link, sys: Sys, f: Faults)
    ensures forall b: Bundle :: ExchangeOf(link, sys, f).dropoffRemote(b) == f.fate.Accepted?
  {}

  lemma OffersIgnoreDropoff(p: PeerState, x: Exchange, y: Exchange, lt: int, le: bool, rt: int, re: bool)
    requires y.pickupLocal == x.pickupLocal && y.pickupRemote == x.pickupRemote
    requires Offers(p, x, lt, le, rt, re)
    ensures Offers(p, y, lt, le, rt, re)
  {}

  /** A page that is offered is pushed just if the remote Dropoff returns no error. */
  lemma PushedIff(p: PeerState, x: Exchange, yes: Exchange, accepts: bool)
    requires yes.id == x.id && yes.pickupLocal == x.pickupLocal && yes.pickupRemote == x.pickupRemote
    requires forall b: Bundle :: yes.dropoffRemote(b)
    requires forall b: Bundle :: x.dropoffRemote(b) == accepts
    ensures Poll(p, x).pushed.Some? <==> Poll(p, yes).pushed.Some? && accepts
  {}

  lemma StepKeepsInvariant(link: Link, sys: Sys, e: Event)
    requires CipherNonEmpty(link.local) && CipherNonEmpty(link.remote)
    requires Invariant(sys) && Enabled(sys, e)
    ensures Invariant(Step(link, sys, e))
    ensures Step(link, sys, e).peer.lastPollLocal >= sys.peer.lastPollLocal
    ensures Step(link, sys, e).peer.lastPollRemote >= sys.peer.lastPollRemote
  {
    hide Timed, Covered, Flushed, Poll, Offered, ExchangeOf, PageOf, PageTime, CipherNonEmpty;
    var p := sys.peer;
    match e {
      case AppendLocal(m) => AppendKeeps(sys.local, m, p.lastPollLocal, sys.localClock, sys.accepted);
      case AppendRemote(m) => AppendKeeps(sys.remote, m, p.lastPollRemote, sys.remoteClock, sys.given);
      case FlushLocal(c) => FlushKeeps(sys.local, c, p.lastPollLocal, sys.localClock, sys.accepted);
      case FlushRemote(c) => FlushKeeps(sys.remote, c, p.lastPollRemote, sys.remoteClock, sys.given);
      case PollServer(f) =>
        PollFacts(link, sys, f);
        var r := Poll(p, ExchangeOf(link, sys, f));
        if Offered(link, sys, f) && !f.fate.Rejected? {
          PageKeepsCovered(sys.local, p.lastPollLocal, sys.localClock, link.localLimit, sys.accepted,
                           r.peer.lastPollLocal);
        }
        if r.pulled.Some? {
          PageKeepsCovered(sys.remote, p.lastPollRemote, sys.remoteClock, link.remoteLimit, sys.given,
                           r.peer.lastPollRemote);
        }
    }
  }

  /**
   * At-least-once safety of every run: whatever calls fail, each message still queued at or below a cursor was in
   * a bundle its receiver took.
   */
  lemma {:induction false} CursorsAreSafe(link: Link, states: seq<Sys>, es: seq<Event>)
    requires CipherNonEmpty(link.local) && CipherNonEmpty(link.remote) && Run(link, states, es)
    ensures Invariant(states[|es|])
    decreases |es|
  {
    hide Enabled, Step, Invariant, CipherNonEmpty;
    if es == [] {
      StartInvariant();
    } else {
      var n := |es| - 1;
      CursorsAreSafe(link, states[..n + 1], es[..n]);
      StepKeepsInvariant(link, states[n], es[n]);
    }
  }

  lemma StartInvariant()
    ensures Invariant(START)
  {}

  /** Both cursors never decrease. */
  lemma {:induction false} CursorsNeverDecrease(link: Link, states: seq<Sys>, es: seq<Event>, i: nat, j: nat)
    requires CipherNonEmpty(link.local) && CipherNonEmpty(link.remote) && Run(link, states, es)
    requires i <= j <= |es|
    ensures states[i].peer.lastPollLocal <= states[j].peer.lastPollLocal
    ensures states[i].peer.lastPollRemote <= states[j].peer.lastPollRemote
    decreases j
  {
    hide Enabled, Step, Invariant, CipherNonEmpty;
    if i >= j {
    } else {
      CursorsNeverDecrease(link, states, es, i, j - 1);
      assert Run(link, states[..j], es[..j - 1]);
      CursorsAreSafe(link, states[..j], es[..j - 1]);
      StepKeepsInvariant(link, states[j - 1], es[j - 1]);
    }
  }

  // Repetition: an error from the remote Dropoff means that it did not accept

  ghost predicate ErrorsReject(es: seq<Event>) {
    forall i | 0 <= i < |es| :: es[i].PollServer? ==> !es[i].faults.fate.AcceptedWithError?
  }

  ghost predicate BelowCursor(page: seq<OutboxMsg>, cursor: int) {
    forall m | m in page :: m.time <= cursor
  }

  ghost predicate Disjoint(a: seq<OutboxMsg>, b: seq<OutboxMsg>) {
    forall m | m in a :: m !in b
  }

  /** The cursor is past every accepted page but the first, and those pages share no message. */
  ghost predicate FewRepeats(sys: Sys) {
    && (sys.peer.totalBytesTX > 0 <==> sys.accepted != [])
    && (forall i | 1 <= i < |sys.accepted| :: BelowCursor(sys.accepted[i], sys.peer.lastPollLocal))
    && (forall i, j | 1 <= i < j < |sys.accepted| :: Disjoint(sys.accepted[i], sys.accepted[j]))
  }

  lemma PageBelowItsTime(q: seq<OutboxMsg>, since: int, limit: int)
    requires Increasing(q)
    ensures var p := PageOf(q, since, limit, []); BelowCursor(p, PageTime(p, since))
  {
    hide Page;
    NewerIncreasing(q, since, []);
    var ms, p := Newer(q, since, []), PageOf(q, since, limit, []);
    forall m | m in p ensures m.time <= PageTime(p, since) {
      var i :| 0 <= i < |p| && p[i] == m;
      assert p[i] == ms[i] && p[|p| - 1] == ms[|p| - 1];
    }
  }

  lemma NewPageDisjoint(q: seq<OutboxMsg>, since: int, limit: int, stale: seq<OutboxMsg>)
    requires BelowCursor(stale, since)
    ensures Disjoint(stale, PageOf(q, since, limit, []))
  {
    hide PageOf;
    PageMembers(q, since, limit);
  }

  lemma BelowLater(page: seq<OutboxMsg>, cursor: int, later: int)
    requires BelowCursor(page, cursor) && cursor <= later
    ensures BelowCursor(page, later)
  {}

  lemma StepKeepsFewRepeats(link: Link, sys: Sys, e: Event)
    requires CipherNonEmpty(link.local) && CipherNonEmpty(link.remote)
    requires Invariant(sys) && Enabled(sys, e) && FewRepeats(sys) && ErrorsReject([e])
    ensures FewRepeats(Step(link, sys, e))
  {
    hide Poll, Offered, ExchangeOf, PageOf, PageTime, CipherNonEmpty, BelowCursor, Disjoint, Flushed, Covered;
    if e.PollServer? {
      assert !e.faults.fate.AcceptedWithError? by { assert [e][0] == e; }
      PollFacts(link, sys, e.faults);
      var p, sys', page := sys.peer, Step(link, sys, e), LocalPage(link, sys);
      PageMembers(sys.local, p.lastPollLocal, link.localLimit);
      PageBelowItsTime(sys.local, p.lastPollLocal, link.localLimit);
      forall i | 1 <= i < |sys.accepted| ensures BelowCursor(sys.accepted[i], sys'.peer.lastPollLocal) {
        BelowLater(sys.accepted[i], p.lastPollLocal, sys'.peer.lastPollLocal);
      }
      forall i | 1 <= i < |sys.accepted| ensures Disjoint(sys.accepted[i], page) {
        NewPageDisjoint(sys.local, p.lastPollLocal, link.localLimit, sys.accepted[i]);
      }
    }
  }

  /** Only messages of the first accepted bundle are ever in two accepted bundles, even with flushes. */
  lemma {:induction false} OnlyFirstRepeats(link: Link, states: seq<Sys>, es: seq<Event>)
    requires CipherNonEmpty(link.local) && CipherNonEmpty(link.remote) && Run(link, states, es) && ErrorsReject(es)
    ensures FewRepeats(states[|es|])
    decreases |es|
  {
    hide Enabled, Step, Invariant, CipherNonEmpty, FewRepeats;
    if es == [] {
      StartFewRepeats();
    } else {
      var n := |es| - 1;
      OnlyFirstRepeats(link, states[..n + 1], es[..n]);
      CursorsAreSafe(link, states[..n + 1], es[..n]);
      StepKeepsFewRepeats(link, states[n], es[n]);
    }
  }

  lemma StartFewRepeats()
    ensures FewRepeats(START)
  {}

  // Without flushes the second accepted bundle is the last one with repeated messages.

  ghost predicate NoFlush(es: seq<Event>) {
    forall i | 0 <= i < |es| :: !es[i].FlushLocal?
  }

  /**
   * Until a second page is accepted the first is still what the cursor would yield of an earlier queue, so the
   * second page begins with all of it.
   */
  ghost predicate FirstPage(link: Link, sys: Sys) {
    && (sys.accepted != [] ==> sys.accepted[0] != [])
    && (|sys.accepted| >= 2 ==> sys.accepted[0] <= sys.accepted[1])
    && (|sys.accepted| == 1 ==>
          exists q: seq<OutboxMsg> :: q <= sys.local
            && sys.accepted[0] == PageOf(q, sys.peer.lastPollLocal, link.localLimit, []))
    && (|sys.accepted| >= 2 ==> BelowCursor(sys.accepted[0], sys.peer.lastPollLocal))
  }

  lemma {:induction false} NewerOfPrefix(q: seq<OutboxMsg>, q': seq<OutboxMsg>, since: int)
    requires q <= q'
    ensures Newer(q, since, []) <= Newer(q', since, [])
  {
    if q == [] {
    } else {
      NewerOfPrefix(q[1..], q'[1..], since);
    }
  }

  lemma {:induction false} PageOfPrefix(ms: seq<OutboxMsg>, ms': seq<OutboxMsg>, limit: int, used: nat)
    requires ms <= ms'
    ensures Page(ms, limit, used) <= Page(ms', limit, used)
  {
    if ms == [] {
    } else {
      PageOfPrefix(ms[1..], ms'[1..], limit, used + |ms[0].msg|);
    }
  }

  lemma StepKeepsFirstPage(link: Link, sys: Sys, e: Event)
    requires CipherNonEmpty(link.local) && CipherNonEmpty(link.remote)
    requires Invariant(sys) && Enabled(sys, e) && FewRepeats(sys) && FirstPage(link, sys)
    requires ErrorsReject([e]) && !e.FlushLocal?
    ensures FirstPage(link, Step(link, sys, e))
  {
    hide Poll, Offered, ExchangeOf, PageOf, PageTime, CipherNonEmpty, BelowCursor, Disjoint, Flushed, Covered;
    var p, sys' := sys.peer, Step(link, sys, e);
    if |sys.accepted| == 1 {
      var q :| q <= sys.local && sys.accepted[0] == PageOf(q, p.lastPollLocal, link.localLimit, []);
      if e.PollServer? {
        assert !e.faults.fate.AcceptedWithError? by { assert [e][0] == e; }
        PollFacts(link, sys, e.faults);
        FirstPageBelow(q, sys.local, p.lastPollLocal, link.localLimit);
      }
      assert |sys'.accepted| == 1 ==> q <= sys'.local;
    } else if e.PollServer? {
      assert !e.faults.fate.AcceptedWithError? by { assert [e][0] == e; }
      PollFacts(link, sys, e.faults);
      PageMembers(sys.local, p.lastPollLocal, link.localLimit);
      if |sys.accepted| >= 2 {
        BelowLater(sys.accepted[0], p.lastPollLocal, sys'.peer.lastPollLocal);
      } else if |sys'.accepted| == 1 {
        assert sys.local <= sys'.local && sys'.accepted[0] == LocalPage(link, sys);
      }
    }
  }

  lemma FirstPageBelow(q: seq<OutboxMsg>, q': seq<OutboxMsg>, since: int, limit: int)
    requires q <= q' && Increasing(q')
    ensures PageOf(q, since, limit, []) <= PageOf(q', since, limit, [])
    ensures BelowCursor(PageOf(q, since, limit, []), PageTime(PageOf(q', since, limit, []), since))
  {
    hide Newer, Page, PageTime;
    NewerOfPrefix(q, q', since);
    PageOfPrefix(Newer(q, since, []), Newer(q', since, []), limit, 0);
    PageBelowItsTime(q', since, limit);
    var a, b := PageOf(q, since, limit, []), PageOf(q', since, limit, []);
    forall m | m in a ensures m in b {
      var i :| 0 <= i < |a| && a[i] == m;
      assert b[i] == m;
    }
  }

  lemma PrefixOverlaps(a: seq<OutboxMsg>, b: seq<OutboxMsg>)
    requires a != [] && a <= b
    ensures !Disjoint(a, b)
  {
    assert a[0] in a && b[0] == a[0] && b[0] in b;
  }

  /**
   * Without flushes the second accepted bundle begins with the whole first one again, and no other two accepted
   * bundles share a message.
   */
  lemma {:induction false} RepeatsAreFirstTwo(link: Link, states: seq<Sys>, es: seq<Event>)
    requires CipherNonEmpty(link.local) && CipherNonEmpty(link.remote) && Run(link, states, es)
    requires ErrorsReject(es) && NoFlush(es)
    ensures FirstPage(link, states[|es|])
    ensures var pages := states[|es|].accepted;
      && (pages != [] ==> pages[0] != []) && (|pages| >= 2 ==> pages[0] <= pages[1])
      && forall i, j | 0 <= i < j < |pages| :: !Disjoint(pages[i], pages[j]) <==> i == 0 && j == 1
    decreases |es|
  {
    hide Enabled, Invariant, CipherNonEmpty, FirstPage, Poll, Offered, ExchangeOf, PageOf, PageTime;
    hide BelowCursor, Disjoint;
    OnlyFirstRepeats(link, states, es);
    if es == [] {
      StartFirstPage(link);
    } else {
      var n := |es| - 1;
      var sys := states[n];
      RepeatsAreFirstTwo(link, states[..n + 1], es[..n]);
      OnlyFirstRepeats(link, states[..n + 1], es[..n]);
      CursorsAreSafe(link, states[..n + 1], es[..n]);
      StepKeepsFirstPage(link, sys, es[n]);
      if es[n].PollServer? && |sys.accepted| >= 2 {
        FirstBelow(link, sys);
        NewPageDisjoint(sys.local, sys.peer.lastPollLocal, link.localLimit, sys.accepted[0]);
      }
      FirstTwo(link, states[|es|]);
    }
  }

  lemma FirstTwo(link: Link, sys: Sys)
    requires FirstPage(link, sys)
    ensures sys.accepted != [] ==> sys.accepted[0] != []
    ensures |sys.accepted| >= 2 ==>
      sys.accepted[0] <= sys.accepted[1] && !Disjoint(sys.accepted[0], sys.accepted[1])
  {
    if |sys.accepted| >= 2 { PrefixOverlaps(sys.accepted[0], sys.accepted[1]); }
  }

  lemma FirstBelow(link: Link, sys: Sys)
    requires FirstPage(link, sys) && |sys.accepted| >= 2
    ensures BelowCursor(sys.accepted[0], sys.peer.lastPollLocal)
  {}

  lemma StartFirstPage(link: Link)
    ensures FirstPage(link, START)
  {}
}
