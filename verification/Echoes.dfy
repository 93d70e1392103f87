/** What nodes without patches pass on are exact copies, so what echoes between them is as honest as what was queued. */
module Echoes {
  import opened Bytes
  import opened OutboxSpec
  import opened Envelope
  import opened Reassembly
  import opened NodeSpec
  import opened RouteProofs
  import opened Delivery
  import opened NodeRuns
  import opened PollingSpec
  import opened Meetings
  import Codec
  import Remote

  lemma SealIgnoresPrivateName(m: Msg, x: Msg)
    requires m.(name := []) == x.(name := []) && (m.isChan ==> m == x)
    ensures Seal(m) == Seal(x)
  {}

  /** A router without patches queues nothing but exact copies of a message with defined flags. */
  lemma UnpatchedRelays(cfg: Config, st: State, s: bytes, i: nat)
    requires cfg.patches == [] && s != [] && s[0] < 8
    requires |st.outbox| <= i < |Route(cfg, st, s).0.outbox|
    ensures st.outbox <= Route(cfg, st, s).0.outbox && Route(cfg, st, s).0.outbox[i].msg == s
  {
    hide Open, Seal, Route;
    RouteHops(cfg, st, s, i);
    var m: Msg, x: Msg :|
      && Open(s).Opened? && m.(name := []) == Open(s).msg.(name := []) && (m.isChan ==> m == Open(s).msg)
      && x in Redirect(cfg.patches, m) && Route(cfg, st, s).0.outbox[i].msg == Seal(x);
    RedirectUnpatched(cfg.patches, m);
    ResealIsIdentityIff(s);
    SealIgnoresPrivateName(m, Open(s).msg);
  }

  /** Defined flags only, and to node to an honest fragment if it stores it at all. */
  ghost predicate Plain(to: Config, ss: Sources, s: bytes) {
    s != [] && s[0] < 8 && Tame(to, ss, s)
  }

  /** The messages of the queue later than since are plain. */
  ghost predicate AllPlain(to: Config, ss: Sources, q: seq<OutboxMsg>, since: int) {
    forall r | r in q && r.time > since :: Plain(to, ss, r.msg)
  }

  lemma RouteKeepsPlain(cfg: Config, to: Config, ss: Sources, st: State, s: bytes, since: int)
    requires cfg.patches == [] && Plain(to, ss, s) && AllPlain(to, ss, st.outbox, since)
    ensures AllPlain(to, ss, Route(cfg, st, s).0.outbox, since)
  {
    hide Route, Tame;
    RouteKeepsQueue(cfg, st, s);
    var q' := Route(cfg, st, s).0.outbox;
    forall r | r in q' && r.time > since ensures Plain(to, ss, r.msg) {
      var i :| 0 <= i < |q'| && q'[i] == r;
      if i < |st.outbox| { assert st.outbox[i] == r; } else { UnpatchedRelays(cfg, st, s, i); }
    }
  }

  lemma {:induction false} RouteAllKeepsPlain(cfg: Config, to: Config, ss: Sources, st: State, msgs: seq<bytes>,
                                              since: int)
    requires cfg.patches == [] && AllPlain(to, ss, st.outbox, since)
    requires forall i | 0 <= i < |msgs| :: Plain(to, ss, msgs[i])
    ensures AllPlain(to, ss, RouteAll(cfg, st, msgs).0.outbox, since)
    decreases |msgs|
  {
    hide Route, Plain, AllPlain;
    if msgs == [] {
    } else {
      RouteKeepsPlain(cfg, to, ss, st, msgs[0], since);
      RouteAllKeepsPlain(cfg, to, ss, Route(cfg, st, msgs[0]).0, msgs[1..], since);
    }
  }

  lemma {:induction false} RoutableArePlain(to: Config, ss: Sources, msgs: seq<bytes>)
    requires forall i | 0 <= i < |msgs| :: Plain(to, ss, msgs[i])
    ensures forall i | 0 <= i < |Routable(msgs)| :: Plain(to, ss, Routable(msgs)[i])
  {
    hide Plain;
    if msgs == [] {
    } else {
      RoutableArePlain(to, ss, msgs[1..]);
    }
  }

  lemma PageIsPlain(to: Config, ss: Sources, q: seq<OutboxMsg>, since: int, t: int, limit: int)
    requires AllPlain(to, ss, q, since) && since <= t
    ensures var ms := Payloads(PageOf(q, t, limit, [])); forall i | 0 <= i < |ms| :: Plain(to, ss, ms[i])
  {
    hide Plain, Newer, Page;
    var ms, page := Newer(q, t, []), PageOf(q, t, limit, []);
    forall i | 0 <= i < |page| ensures Plain(to, ss, Payloads(page)[i]) {
      assert page[i] == ms[i] && ms[i] in ms;
    }
  }

  /** One node's bundle dropped off at another leaves the other's queue as plain as both queues were. */
  lemma DropoffKeepsPlain(x: Config, xst: State, y: Config, yst: State, pub: bytes, t: int, limit: int, to: Config,
                          ss: Sources, xsince: int, ysince: int)
    requires CipherPair(x, pub, y, y.routingKey) && y.patches == [] && xsince <= t
    requires Pickup(x, xst, pub, t, limit, []).Some?
    requires |Codec.Encode(Codec.Blobs(Payloads(PageOf(xst.outbox, t, limit, []))))| < TWO_63
    requires AllPlain(to, ss, xst.outbox, xsince) && AllPlain(to, ss, yst.outbox, ysince)
    ensures AllPlain(to, ss, Dropoff(y, yst, Pickup(x, xst, pub, t, limit, []).value).0.outbox, ysince)
  {
    hide AllPlain, Plain, PageOf, RouteAll, Routable, CipherPair, Codec.Encode, Payloads, Remote.BytesBytesFromBytes;
    PickupThenDropoff(x, xst, y, yst, pub, t, limit, []);
    PageIsPlain(to, ss, xst.outbox, xsince, t, limit);
    var ms := Payloads(PageOf(xst.outbox, t, limit, []));
    RoutableArePlain(to, ss, ms);
    RouteAllKeepsPlain(y, to, ss, yst, Routable(ms), ysince);
  }

  // Two unpatched nodes that poll

  lemma PulledShape(p: PeerState, x: Exchange)
    ensures var r := Poll(p, x);
      && (r.pulled.Some? ==> x.pickupRemote(p.lastPollRemote) == BundleValue(r.pulled.value))
      && (r.peer.lastPollRemote == p.lastPollRemote
          || (r.pulled.Some? && r.peer.lastPollRemote == r.pulled.value.time))
  {}

  /** Both queues are plain behind the cursors the run started with. */
  ghost predicate PlainWorld(l: Pair, ss: Sources, w: World, since: int, remoteSince: int) {
    && AllPlain(l.to, ss, w.a.outbox, since) && since <= w.p.lastPollLocal
    && AllPlain(l.to, ss, w.b.outbox, remoteSince) && remoteSince <= w.p.lastPollRemote
  }

  /** What happens beside the polls brings in plain messages only, and pages pulled can be encoded. */
  ghost predicate PlainEvent(l: Pair, ss: Sources, w: World, e: WorldEvent, since: int, remoteSince: int) {
    match e
    case Meet(_) =>
      |Codec.Encode(Codec.Blobs(Payloads(PageOf(w.b.outbox, w.p.lastPollRemote, l.remoteLimit, []))))| < TWO_63
    case Sender(a) => AllPlain(l.to, ss, a.outbox, since)
    case Receiver(Hear(s)) => Plain(l.to, ss, s)
    case Receiver(Assemble(order)) => forall id :: id in order <==> id in w.b.rx.streams
    case Receiver(Read(n)) => n <= |w.b.rx.out|
    case Receiver(Aside(outbox, _)) => AllPlain(l.to, ss, outbox, remoteSince)
  }

  ghost predicate Unpatched(l: Pair) {
    && l.from.patches == [] && l.to.patches == []
    && CipherPair(l.from, l.rpub, l.to, l.to.routingKey) && CipherPair(l.to, l.pubsrv, l.from, l.from.routingKey)
  }

  lemma MeetKeepsPlainA(l: Pair, ss: Sources, w: World, fault: Fault, since: int, remoteSince: int)
    requires Unpatched(l) && PlainWorld(l, ss, w, since, remoteSince)
    requires PlainEvent(l, ss, w, Meet(fault), since, remoteSince)
    ensures AllPlain(l.to, ss, Met(l, w, fault).a.outbox, since)
    ensures remoteSince <= Met(l, w, fault).p.lastPollRemote
  {
    hide AllPlain, Poll, Pickup, Dropoff, CipherPair, PageOf, PageTime, Codec.Encode, Payloads;
    var r, u := Poll(w.p, Calls(l, w, fault)), w.p.lastPollRemote;
    PulledShape(w.p, Calls(l, w, fault));
    if r.pulled.Some? {
      DropoffKeepsPlain(l.to, w.b, l.from, w.a, l.pubsrv, u, l.remoteLimit, l.to, ss, remoteSince, since);
      PickupTime(l.to, w.b, l.pubsrv, u, l.remoteLimit);
    }
  }

  lemma PickupTime(cfg: Config, st: State, pub: bytes, since: int, limit: int)
    requires Pickup(cfg, st, pub, since, limit, []).Some?
    ensures since <= Pickup(cfg, st, pub, since, limit, []).value.time
  {
    hide PageOf, PageTime, Newer, Remote.BytesBytesToBytes, Payloads;
    var page := PageOf(st.outbox, since, limit, []);
    if page != [] { PageAdvances(st.outbox, since, limit, []); } else { NoTime(since); }
  }

  lemma NoTime(since: int)
    ensures PageTime([], since) == since
  {}

  lemma MeetKeepsPlainB(l: Pair, ss: Sources, w: World, fault: Fault, since: int, remoteSince: int)
    requires Unpatched(l) && PlainWorld(l, ss, w, since, remoteSince)
    requires WorldPossible(l, w, Meet(fault)) && w.p.routingPub in {None, Some(l.rpub)}
    ensures AllPlain(l.to, ss, Met(l, w, fault).b.outbox, remoteSince)
  {
    hide AllPlain, Poll, Pickup, Dropoff, CipherPair, PageOf, PageTime, Codec.Encode, Payloads;
    var t := w.p.lastPollLocal;
    PollShape(w.p, Calls(l, w, fault).(dropoffRemote := bundle => true));
    if Attempted(l, w, fault).Some? {
      DropoffKeepsPlain(l.from, w.a, l.to, w.b, l.rpub, t, l.limit, l.to, ss, since, remoteSince);
    }
  }

  lemma StepKeepsPlain(l: Pair, ss: Sources, w: World, e: WorldEvent, since: int, remoteSince: int)
    requires Unpatched(l) && PlainWorld(l, ss, w, since, remoteSince)
    requires PlainEvent(l, ss, w, e, since, remoteSince)
    requires WorldPossible(l, w, e) && w.p.routingPub in {None, Some(l.rpub)}
    ensures PlainWorld(l, ss, WorldStep(l, w, e), since, remoteSince)
    ensures WorldStep(l, w, e).p.routingPub in {None, Some(l.rpub)}
    ensures e.Receiver? ==> Possible(l.to, ss, w.b, e.e)
  {
    hide AllPlain, Met, Route, Pass, CipherPair, WorldPossible, Tame;
    match e {
      case Meet(fault) =>
        MeetKeepsPlainA(l, ss, w, fault, since, remoteSince);
        MeetKeepsPlainB(l, ss, w, fault, since, remoteSince);
        CursorGrows(l, w, fault);
      case Sender(a) =>
      case Receiver(Hear(s)) => RouteKeepsPlain(l.to, l.to, ss, w.b, s, remoteSince);
      case Receiver(_) =>
    }
  }

  /**
   * So if both queues are plain where the cursors stand and only plain messages come in, then all that the two nodes
   * pass to and fro, echoes included, is honest: the condition of the end-to-end theorem on chunked messages.
   */
  lemma {:induction false} EchoesAreHonest(l: Pair, ss: Sources, ws: seq<World>, wes: seq<WorldEvent>)
    requires Unpatched(l) && WorldRun(l, ws, wes)
    requires var t, u := ws[0].p.lastPollLocal, ws[0].p.lastPollRemote;
      && PlainWorld(l, ss, ws[0], t, u)
      && forall i | 0 <= i < |wes| :: PlainEvent(l, ss, ws[i], wes[i], t, u)
    ensures var w := ws[|wes|];
      && PlainWorld(l, ss, w, ws[0].p.lastPollLocal, ws[0].p.lastPollRemote)
      && w.p.routingPub in {None, Some(l.rpub)}
    ensures HonestWorld(l, ss, ws, wes)
    decreases |wes|
  {
    hide PlainEvent, WorldPossible, WorldStep, AllPlain, Possible, Tame, CipherPair;
    if wes == [] {
    } else {
      var n := |wes| - 1;
      LastWorldStep(l, ws, wes);
      EchoesAreHonest(l, ss, ws[..n + 1], wes[..n]);
      StepKeepsPlain(l, ss, ws[n], wes[n], ws[0].p.lastPollLocal, ws[0].p.lastPollRemote);
    }
    PlainIsTame(l.to, ss, ws[|wes|].a.outbox, ws[0].p.lastPollLocal);
  }

  lemma PlainIsTame(to: Config, ss: Sources, q: seq<OutboxMsg>, since: int)
    requires AllPlain(to, ss, q, since)
    ensures forall j | 0 <= j < |q| && q[j].time > since :: Tame(to, ss, q[j].msg)
  {
    hide Tame;
    forall j | 0 <= j < |q| && q[j].time > since ensures Tame(to, ss, q[j].msg) {
      assert q[j] in q;
    }
  }
}
