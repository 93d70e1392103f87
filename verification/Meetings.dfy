/**
 * One node polls another, pushing and pulling, while both do other things in between: what the polled node is sure
 * to have routed.
 */
module Meetings {
  import opened Bytes
  import opened OutboxSpec
  import opened Envelope
  import opened Reassembly
  import opened NodeSpec
  import opened RouteProofs
  import opened Delivery
  import opened NodeRuns
  import opened PollingSpec
  import Codec
  import PollingProofs
  import Remote

  /** The polling node, the polled one, their routing keys' public halves, and the transports' byte limits. */
  datatype Pair = Pair(from: Config, to: Config, rpub: bytes, pubsrv: bytes, limit: int, remoteLimit: int)

  /** The states of the two nodes, and what the polling one remembers of the other. */
  datatype World = World(a: State, b: State, p: PeerState)

  datatype Fault = Fine | NoId | NoPickup | Refused | ReplyLost

  datatype WorldEvent =
    | Meet(fault: Fault)
    | Sender(a: State)       // the polling node does anything that only adds to its queue
    | Receiver(e: NodeEvent)

  /** The calls of one poll: each node answers from its own queue and routes what it is given. */
  ghost function Calls(l: Pair, w: World, fault: Fault): Exchange {
    Exchange(
      if fault.NoId? then RpcError else KeyValue(l.rpub),
      (key, since) => Pickup(l.from, w.a, key, since, l.limit, []),
      since => PickupReply(l, w, fault, since),
      bundle => fault != Refused && fault != ReplyLost && Dropoff(l.to, w.b, bundle).1.Dropped?,
      bundle => Dropoff(l.from, w.a, bundle).1.Dropped?)
  }

  function PickupReply(l: Pair, w: World, fault: Fault, since: int): Reply {
    if fault.NoPickup? then RpcError
    else
      match Pickup(l.to, w.b, l.pubsrv, since, l.remoteLimit, [])
      case None => RpcError
      case Some(bundle) => BundleValue(bundle)
  }

  /** The bundle the poll sends to the other node, whatever becomes of it there. */
  ghost function Attempted(l: Pair, w: World, fault: Fault): Option<Bundle> {
    Poll(w.p, Calls(l, w, fault).(dropoffRemote := bundle => true)).pushed
  }

  ghost function Met(l: Pair, w: World, fault: Fault): World {
    var r, sent := Poll(w.p, Calls(l, w, fault)), Attempted(l, w, fault);
    World(
      if r.pulled.Some? then Dropoff(l.from, w.a, r.pulled.value).0 else w.a,
      if sent.Some? && fault != Refused then Dropoff(l.to, w.b, sent.value).0 else w.b,
      r.peer)
  }

  ghost function WorldStep(l: Pair, w: World, e: WorldEvent): World {
    match e
    case Meet(fault) => Met(l, w, fault)
    case Sender(a) => w.(a := a)
    case Receiver(e) => w.(b := NodeStep(l.to, w.b, e))
  }

  /**
   * The page can be encoded, and routing it does not make the other node panic, which would end the run. A panic of
   * the polling node over what it pulled would end it too, but nothing below needs that excluded.
   */
  ghost predicate WorldPossible(l: Pair, w: World, e: WorldEvent) {
    match e
    case Meet(fault) =>
      && |Codec.Encode(Codec.Blobs(Payloads(PageOf(w.a.outbox, w.p.lastPollLocal, l.limit, []))))| < TWO_63
      && (Attempted(l, w, fault).Some? ==> !Dropoff(l.to, w.b, Attempted(l, w, fault).value).1.DropoffCrashed?)
    case Sender(a) => w.a.outbox <= a.outbox
    case Receiver(_) => true
  }

  /** A run of the two from a first meeting, or a later one, on. */
  ghost predicate WorldRun(l: Pair, ws: seq<World>, wes: seq<WorldEvent>) {
    && |ws| == |wes| + 1
    && CipherPair(l.from, l.rpub, l.to, l.to.routingKey)
    && ws[0].p.routingPub in {None, Some(l.rpub)}
    && forall i | 0 <= i < |wes| :: WorldPossible(l, ws[i], wes[i]) && ws[i + 1] == WorldStep(l, ws[i], wes[i])
  }

  /** What the other node's passes delivered during the run. */
  ghost function WorldLog(ws: seq<World>, wes: seq<WorldEvent>): seq<(uint32, Msg)>
    requires |ws| == |wes| + 1
  {
    if wes == [] then []
    else
      var n := |wes| - 1;
      WorldLog(ws[..n + 1], wes[..n]) + if wes[n].Receiver? then StepLog(ws[n].b, wes[n].e) else []
  }

  /** Whatever the other node stores of what it hears in the run is an honest fragment. */
  ghost predicate HonestWorld(l: Pair, ss: Sources, ws: seq<World>, wes: seq<WorldEvent>)
    requires |ws| == |wes| + 1
  {
    && (forall j | 0 <= j < |ws[|wes|].a.outbox| && ws[|wes|].a.outbox[j].time > ws[0].p.lastPollLocal ::
          Tame(l.to, ss, ws[|wes|].a.outbox[j].msg))
    && forall i | 0 <= i < |wes| && wes[i].Receiver? :: Possible(l.to, ss, ws[i].b, wes[i].e)
  }

  // What one poll does to the other node

  /** What a poll pushes is what was picked up for the peer's key behind the cursor, unless that is empty. */
  lemma PollShape(p: PeerState, x: Exchange)
    ensures var r := Poll(p, x);
      && (r.peer.routingPub == p.routingPub || (x.id.KeyValue? && r.peer.routingPub == Some(x.id.key)))
      && (r.pushed.None? ==> r.peer.lastPollLocal == p.lastPollLocal && r.peer.totalBytesTX == p.totalBytesTX)
      && (r.pushed.Some? ==>
            && r.peer.routingPub.Some? && r.pushed == x.pickupLocal(r.peer.routingPub.value, p.lastPollLocal)
            && r.pushed.value.data != [] && r.peer.totalBytesTX == p.totalBytesTX + |r.pushed.value.data|
            && r.peer.lastPollLocal == if p.totalBytesTX > 0 then r.pushed.value.time else p.lastPollLocal)
      && (r.done && r.pushed.None? ==>
            && r.peer.routingPub.Some?
            && var up := x.pickupLocal(r.peer.routingPub.value, p.lastPollLocal); up.Some? && up.value.data == [])
  {
    hide Poll;
    PollingProofs.PollTransfers(p, x);
    PollingProofs.PollDoneIff(p, x);
  }

  /** Whether the other node takes a bundle decides whether it counts as pushed, not what is tried. */
  lemma PushedIsTried(p: PeerState, x: Exchange)
    ensures var r, tried := Poll(p, x).pushed, Poll(p, x.(dropoffRemote := bundle => true)).pushed;
      r.Some? ==> r == tried && x.dropoffRemote(r.value)
  {}

  /** Either nothing reaches the other node, or the page behind the cursor does, and the cursor may follow it. */
  lemma MeetEffect(l: Pair, w: World, fault: Fault)
    requires WorldPossible(l, w, Meet(fault)) && w.p.routingPub in {None, Some(l.rpub)}
    requires CipherPair(l.from, l.rpub, l.to, l.to.routingKey)
    ensures var w' := Met(l, w, fault);
      var page := PageOf(w.a.outbox, w.p.lastPollLocal, l.limit, []);
      && w'.p.routingPub in {None, Some(l.rpub)}
      && (|| (w'.b == w.b && w'.p.lastPollLocal == w.p.lastPollLocal)
          || (&& page != [] && w'.b == RouteEach(l.to, w.b, Routable(Payloads(page)))
              && w'.p.lastPollLocal in {w.p.lastPollLocal, PageTime(page, w.p.lastPollLocal)}))
  {
    hide PageOf, PageTime, Dropoff, RouteEach, RouteAll, Routable, CipherPair, PanicsAt, Codec.Encode, Poll, Pickup;
    var page := PageOf(w.a.outbox, w.p.lastPollLocal, l.limit, []);
    var x := Calls(l, w, fault);
    PollShape(w.p, x);
    PollShape(w.p, x.(dropoffRemote := bundle => true));
    PushedIsTried(w.p, x);
    if Pickup(l.from, w.a, l.rpub, w.p.lastPollLocal, l.limit, []).Some? {
      PickupThenDropoff(l.from, w.a, l.to, w.b, l.rpub, w.p.lastPollLocal, l.limit, []);
      RouteAllIff(l.to, w.b, Routable(Payloads(page)));
      RouteAllNeverFails(l.to, w.b, Routable(Payloads(page)));
    }
  }

  lemma {:induction false} RouteAllKeepsQueue(cfg: Config, st: State, msgs: seq<bytes>)
    ensures st.outbox <= RouteAll(cfg, st, msgs).0.outbox
    decreases |msgs|
  {
    hide Route;
    if msgs == [] {
    } else {
      RouteKeepsQueue(cfg, st, msgs[0]);
      RouteAllKeepsQueue(cfg, Route(cfg, st, msgs[0]).0, msgs[1..]);
    }
  }

  lemma DropoffKeepsQueue(cfg: Config, st: State, bundle: Bundle)
    ensures st.outbox <= Dropoff(cfg, st, bundle).0.outbox
  {
    hide RouteAll, Routable;
    var d := cfg.decrypt(cfg.routingKey, bundle.data);
    if Remote.BytesBytesFromBytes(d.clear).Success? {
      RouteAllKeepsQueue(cfg, st, Routable(Remote.BytesBytesFromBytes(d.clear).value));
    }
  }

  /** The polling node's queue only grows, whatever it pulls. */
  lemma QueueGrows(l: Pair, w: World, e: WorldEvent)
    requires WorldPossible(l, w, e)
    ensures w.a.outbox <= WorldStep(l, w, e).a.outbox
  {
    hide Dropoff, Poll, Calls, Attempted, Codec.Encode;
    if e.Meet? {
      var pulled := Poll(w.p, Calls(l, w, e.fault)).pulled;
      if pulled.Some? { DropoffKeepsQueue(l.from, w.a, pulled.value); }
    }
  }

  // Runs

  /** In time order the newer messages are the last ones. */
  lemma {:induction false} NewerIsSuffix(q: seq<OutboxMsg>, since: int) returns (n: nat)
    requires Increasing(q)
    ensures n <= |q| && Newer(q, since, []) == q[n..]
    ensures (forall j | 0 <= j < n :: q[j].time <= since) && forall j | n <= j < |q| :: since < q[j].time
  {
    if q == [] {
      n := 0;
    } else if q[0].time <= since {
      n := NewerIsSuffix(q[1..], since);
      assert q[1..][n..] == q[n + 1..];
      assert forall j | 0 < j < |q| :: q[j] == q[1..][j - 1];
      n := n + 1;
    } else {
      n := 0;
      assert q[0..] == q && q[..0] == [];
      NewerSplit(q, 0, since, []);
    }
  }

  /** The page behind a cursor, as a stretch of the queue. */
  lemma PageStretch(q: seq<OutboxMsg>, since: int, limit: int) returns (i: nat, e: nat)
    requires Increasing(q)
    ensures i <= e <= |q| && PageOf(q, since, limit, []) == q[i..e]
    ensures (forall j | 0 <= j < i :: q[j].time <= since) && forall j | i <= j < |q| :: since < q[j].time
    ensures i < e ==> PageTime(q[i..e], since) == q[e - 1].time
    ensures Newer(q, since, []) == q[i..]
  {
    hide Newer, Page;
    i := NewerIsSuffix(q, since);
    var page := PageOf(q, since, limit, []);
    e := i + |page|;
    assert q[i..][..|page|] == q[i..e];
  }

  lemma IncreasingPrefix(q: seq<OutboxMsg>, q': seq<OutboxMsg>)
    requires Increasing(q') && q <= q'
    ensures Increasing(q)
  {
    assert forall j | 0 <= j < |q| :: q'[j] == q[j];
  }

  lemma LastWorldStep(l: Pair, ws: seq<World>, wes: seq<WorldEvent>)
    requires WorldRun(l, ws, wes) && wes != []
    ensures var n := |wes| - 1;
      && WorldRun(l, ws[..n + 1], wes[..n]) && WorldPossible(l, ws[n], wes[n])
      && ws[n + 1] == WorldStep(l, ws[n], wes[n]) && ws[n].a.outbox <= ws[n + 1].a.outbox
      && CipherPair(l.from, l.rpub, l.to, l.to.routingKey)
  {
    hide WorldPossible, WorldStep, CipherPair;
    QueueGrows(l, ws[|wes| - 1], wes[|wes| - 1]);
  }

  lemma {:induction false} WorldGrows(l: Pair, ws: seq<World>, wes: seq<WorldEvent>)
    requires WorldRun(l, ws, wes)
    ensures ws[0].a.outbox <= ws[|wes|].a.outbox
    decreases |wes|
  {
    hide WorldPossible, WorldStep, CipherPair;
    if wes == [] {
    } else {
      LastWorldStep(l, ws, wes);
      WorldGrows(l, ws[..|wes|], wes[..|wes| - 1]);
    }
  }

  // Progress

  /** How many polls of the run PollServer reported as done. */
  ghost function DonePolls(l: Pair, ws: seq<World>, wes: seq<WorldEvent>): nat
    requires |ws| == |wes| + 1
  {
    if wes == [] then 0
    else
      var n := |wes| - 1;
      DonePolls(l, ws[..n + 1], wes[..n]) + if IsDone(l, ws[n], wes[n]) then 1 else 0
  }

  ghost predicate IsDone(l: Pair, w: World, e: WorldEvent) {
    e.Meet? && Poll(w.p, Calls(l, w, e.fault)).done
  }

  /** A poll that is done has pushed the page; all but the first push move the cursor behind it. */
  lemma DoneEffect(l: Pair, w: World, fault: Fault)
    requires WorldPossible(l, w, Meet(fault)) && w.p.routingPub in {None, Some(l.rpub)} && w.p.totalBytesTX >= 0
    requires CipherPair(l.from, l.rpub, l.to, l.to.routingKey)
    ensures var page, r := PageOf(w.a.outbox, w.p.lastPollLocal, l.limit, []), Poll(w.p, Calls(l, w, fault));
      && r.peer.totalBytesTX >= w.p.totalBytesTX
      && (r.done && page != [] ==>
            && r.peer.totalBytesTX > 0
            && (w.p.totalBytesTX > 0 ==> r.peer.lastPollLocal == PageTime(page, w.p.lastPollLocal)))
  {
    hide PageOf, PageTime, Dropoff, CipherPair, Codec.Encode, Payloads, Poll, Pickup, RouteAll;
    PollShape(w.p, Calls(l, w, fault));
    if Pickup(l.from, w.a, l.rpub, w.p.lastPollLocal, l.limit, []).Some? {
      PickupThenDropoff(l.from, w.a, l.to, w.b, l.rpub, w.p.lastPollLocal, l.limit, []);
    }
  }

  /** The first n messages of the queue lie at or below the cursor. */
  ghost predicate Passed(w: World, n: nat) {
    forall j | 0 <= j < |w.a.outbox| && j < n :: w.a.outbox[j].time <= w.p.lastPollLocal
  }

  lemma PassedStays(w: World, w': World, n: nat)
    requires Passed(w, n) && w.a.outbox <= w'.a.outbox && n <= |w.a.outbox|
    requires w.p.lastPollLocal <= w'.p.lastPollLocal
    ensures Passed(w', n)
  {
    assert forall j | 0 <= j < |w.a.outbox| :: w'.a.outbox[j] == w.a.outbox[j];
  }

  /** A done poll with something pushed before passes at least one more message that fits. */
  lemma OneMorePassed(l: Pair, w: World, fault: Fault, n: nat, end: nat)
    requires WorldPossible(l, w, Meet(fault)) && w.p.routingPub in {None, Some(l.rpub)} && w.p.totalBytesTX >= 0
    requires CipherPair(l.from, l.rpub, l.to, l.to.routingKey)
    requires Increasing(w.a.outbox) && IsDone(l, w, Meet(fault)) && Passed(w, n) && n < end <= |w.a.outbox|
    requires forall j | n <= j < end :: Fits(w.a.outbox[j], l.limit)
    ensures Met(l, w, fault).p.totalBytesTX > 0 || Passed(w, end)
    ensures w.p.totalBytesTX > 0 ==> Passed(Met(l, w, fault), n + 1) || Passed(w, end)
  {
    hide Dropoff, CipherPair, Codec.Encode, Payloads, Newer, PageTime, Calls, Poll, WorldPossible;
    var q := w.a.outbox;
    var i, e := PageStretch(q, w.p.lastPollLocal, l.limit);
    DoneEffect(l, w, fault);
    QueueGrows(l, w, Meet(fault));
    if i < end {
      NotPassedFits(w, n, i);
      FirstFits(q, w.p.lastPollLocal, l.limit, i, e);
      if w.p.totalBytesTX > 0 { PassedByPage(w, Met(l, w, fault), n, i, e); }
    }
  }

  lemma NotPassedFits(w: World, n: nat, i: nat)
    requires Passed(w, n) && i < |w.a.outbox| && w.a.outbox[i].time > w.p.lastPollLocal
    ensures n <= i
  {}

  lemma FirstFits(q: seq<OutboxMsg>, since: int, limit: int, i: nat, e: nat)
    requires i < |q| && Newer(q, since, []) == q[i..] && Fits(q[i], limit)
    requires i <= e <= |q| && PageOf(q, since, limit, []) == q[i..e]
    ensures i < e && q[i..e] != []
  {
    hide Newer;
    assert q[i..][0] == q[i];
  }

  lemma PassedByPage(w: World, w': World, n: nat, i: nat, e: nat)
    requires Increasing(w.a.outbox) && w.a.outbox <= w'.a.outbox && n <= i < e <= |w.a.outbox|
    requires w'.p.lastPollLocal == w.a.outbox[e - 1].time
    ensures Passed(w', n + 1)
  {
    var q, q' := w.a.outbox, w'.a.outbox;
    forall j | 0 <= j < n + 1 ensures q'[j].time <= w'.p.lastPollLocal {
      assert q'[j] == q[j] && j <= e - 1;
    }
  }

  lemma CursorGrows(l: Pair, w: World, fault: Fault)
    requires WorldPossible(l, w, Meet(fault)) && w.p.routingPub in {None, Some(l.rpub)}
    requires CipherPair(l.from, l.rpub, l.to, l.to.routingKey)
    ensures w.p.lastPollLocal <= Met(l, w, fault).p.lastPollLocal
    ensures Met(l, w, fault).p.routingPub in {None, Some(l.rpub)}
  {
    hide Met, WorldPossible, CipherPair, PageOf, PageTime, RouteEach, Routable, Newer;
    MeetEffect(l, w, fault);
    if PageOf(w.a.outbox, w.p.lastPollLocal, l.limit, []) != [] {
      PageAdvances(w.a.outbox, w.p.lastPollLocal, l.limit, []);
    }
  }

  /** How far d done polls bring the cursor among n new messages. */
  function Reach(at: nat, n: nat, d: nat): nat {
    if d > n then at + n else if d > 0 then at + d - 1 else at
  }

  lemma ReachGrows(at: nat, n: nat, d: nat)
    ensures at <= Reach(at, n, d) <= at + n
    ensures Reach(at, n, d) < at + n ==> Reach(at, n, d + 1) == if d == 0 then at else Reach(at, n, d) + 1
  {}

  lemma DonePasses(l: Pair, w: World, fault: Fault, at: nat, n: nat, d: nat)
    requires WorldPossible(l, w, Meet(fault)) && w.p.routingPub in {None, Some(l.rpub)} && w.p.totalBytesTX >= 0
    requires CipherPair(l.from, l.rpub, l.to, l.to.routingKey) && IsDone(l, w, Meet(fault))
    requires Increasing(w.a.outbox) && at + n <= |w.a.outbox| && Passed(w, Reach(at, n, d))
    requires forall j | at <= j < at + n :: Fits(w.a.outbox[j], l.limit)
    requires d > 0 ==> w.p.totalBytesTX > 0 || Passed(w, at + n)
    requires w.a.outbox <= Met(l, w, fault).a.outbox && w.p.lastPollLocal <= Met(l, w, fault).p.lastPollLocal
    ensures var w' := Met(l, w, fault);
      Passed(w', Reach(at, n, d + 1)) && (w'.p.totalBytesTX > 0 || Passed(w', at + n))
  {
    hide WorldPossible, CipherPair, Increasing, Passed, Met, IsDone, Fits, Reach;
    var w', m := Met(l, w, fault), Reach(at, n, d);
    ReachGrows(at, n, d);
    ReachGrows(at, n, d + 1);
    if Passed(w, at + n) {
      PassedStays(w, w', at + n);
      PassedLess(w', Reach(at, n, d + 1), at + n);
    } else {
      OneMorePassed(l, w, fault, m, at + n);
      PassedStays(w, w', m);
      PassedLess(w', at, m);
    }
  }

  /** How the last step changes what has been passed. */
  lemma StepPasses(l: Pair, w: World, e: WorldEvent, at: nat, n: nat, d: nat)
    requires WorldPossible(l, w, e) && w.p.routingPub in {None, Some(l.rpub)} && w.p.totalBytesTX >= 0
    requires CipherPair(l.from, l.rpub, l.to, l.to.routingKey)
    requires Increasing(w.a.outbox) && at + n <= |w.a.outbox| && Passed(w, Reach(at, n, d))
    requires forall j | at <= j < at + n :: Fits(w.a.outbox[j], l.limit)
    requires d > 0 ==> w.p.totalBytesTX > 0 || Passed(w, at + n)
    ensures var w', d' := WorldStep(l, w, e), d + if IsDone(l, w, e) then 1 else 0;
      && w'.p.routingPub in {None, Some(l.rpub)} && w'.p.totalBytesTX >= 0
      && w.p.lastPollLocal <= w'.p.lastPollLocal
      && Passed(w', Reach(at, n, d')) && (d' > 0 ==> w'.p.totalBytesTX > 0 || Passed(w', at + n))
  {
    hide WorldPossible, CipherPair, Increasing, Passed, Met, Calls, Poll, Fits, Reach, NodeStep, PageOf;
    var w' := WorldStep(l, w, e);
    QueueGrows(l, w, e);
    ReachGrows(at, n, d);
    if e.Meet? {
      CursorGrows(l, w, e.fault);
      DoneEffect(l, w, e.fault);
      TXOfMet(l, w, e.fault);
    }
    if IsDone(l, w, e) {
      DonePasses(l, w, e.fault, at, n, d);
    } else {
      PassedStays(w, w', Reach(at, n, d));
      if Passed(w, at + n) { PassedStays(w, w', at + n); }
    }
  }

  lemma PassedLess(w: World, m: nat, n: nat)
    requires m <= n && Passed(w, n)
    ensures Passed(w, m)
  {}

  lemma TXOfMet(l: Pair, w: World, fault: Fault)
    ensures Met(l, w, fault).p == Poll(w.p, Calls(l, w, fault)).peer
  {
    hide Poll, Calls, Dropoff;
  }

  /**
   * Progress: of n new messages that all fit, each done poll but the first brings the cursor past one more at least;
   * after n + 1 done polls, whatever else happened, it has passed them all.
   */
  lemma {:induction false} DonePollsPass(l: Pair, ws: seq<World>, wes: seq<WorldEvent>, at: nat, n: nat)
    requires WorldRun(l, ws, wes) && Increasing(ws[|wes|].a.outbox) && ws[0].p.totalBytesTX >= 0
    requires at + n <= |ws[0].a.outbox| && Passed(ws[0], at)
    requires forall j | at <= j < at + n :: Fits(ws[0].a.outbox[j], l.limit)
    ensures var w, d := ws[|wes|], DonePolls(l, ws, wes);
      && w.p.routingPub in {None, Some(l.rpub)} && w.p.totalBytesTX >= 0
      && ws[0].p.lastPollLocal <= w.p.lastPollLocal && ws[0].a.outbox <= w.a.outbox
      && Passed(w, Reach(at, n, d)) && (d > 0 ==> w.p.totalBytesTX > 0 || Passed(w, at + n))
    decreases |wes|
  {
    hide WorldStep, WorldPossible, CipherPair, Increasing, Passed, IsDone, Fits, Reach;
    if wes == [] {
      NoneDone(at, n);
    } else {
      var k := |wes| - 1;
      LastWorldStep(l, ws, wes);
      IncreasingPrefix(ws[k].a.outbox, ws[k + 1].a.outbox);
      DonePollsPass(l, ws[..k + 1], wes[..k], at, n);
      FitsInLonger(ws[0].a.outbox, ws[k].a.outbox, at, n, l.limit);
      StepPasses(l, ws[k], wes[k], at, n, DonePolls(l, ws[..k + 1], wes[..k]));
    }
  }

  lemma NoneDone(at: nat, n: nat)
    ensures Reach(at, n, 0) == at
  {}

  lemma FitsInLonger(q: seq<OutboxMsg>, q': seq<OutboxMsg>, at: nat, n: nat, limit: int)
    requires q <= q' && at + n <= |q| && forall j | at <= j < at + n :: Fits(q[j], limit)
    ensures forall j | at <= j < at + n :: Fits(q'[j], limit)
  {
    assert forall j | 0 <= j < |q| :: q'[j] == q[j];
  }

  // Meetings at which everything works

  ghost predicate Encodable(page: seq<OutboxMsg>) {
    |Codec.Encode(Codec.Blobs(Payloads(page)))| < TWO_63
  }

  /** x can pick up for y's key, and y takes what is picked up: the ciphers work and no message panics. */
  ghost predicate Gets(x: Config, xst: State, pub: bytes, page: seq<OutboxMsg>, y: Config, yst: State) {
    && CipherPair(x, pub, y, y.routingKey) && (forall clear: bytes :: x.encrypt(pub, clear, xst.ticks).Some?)
    && Encodable(page) && NonePanics(y, yst.window, Routable(Payloads(page)))
  }

  /** No call fails, and each node can read and route what the other holds for it. */
  ghost predicate Works(l: Pair, w: World, e: WorldEvent) {
    && e == Meet(Fine) && w.p.routingPub in {None, Some(l.rpub)}
    && Gets(l.from, w.a, l.rpub, PageOf(w.a.outbox, w.p.lastPollLocal, l.limit, []), l.to, w.b)
    && Gets(l.to, w.b, l.pubsrv, PageOf(w.b.outbox, w.p.lastPollRemote, l.remoteLimit, []), l.from, w.a)
  }

  lemma GetsIsDropped(x: Config, xst: State, pub: bytes, t: int, limit: int, y: Config, yst: State)
    requires Gets(x, xst, pub, PageOf(xst.outbox, t, limit, []), y, yst)
    ensures var up := Pickup(x, xst, pub, t, limit, []);
      && up.Some? && (up.value.data == [] <==> PageOf(xst.outbox, t, limit, []) == [])
      && (up.value.data != [] ==> Dropoff(y, yst, up.value).1.Dropped?)
  {
    hide PageOf, PageTime, Dropoff, CipherPair, Codec.Encode, RouteAll, NonePanics, Payloads, Routable;
    PickupThenDropoff(x, xst, y, yst, pub, t, limit, []);
    RouteAllIff(y, yst, Routable(Payloads(PageOf(xst.outbox, t, limit, []))));
  }

  /** Then PollServer pushes and pulls both pages and reports the poll as done. */
  lemma WorkingIsDone(l: Pair, w: World, e: WorldEvent)
    requires Works(l, w, e)
    ensures IsDone(l, w, e)
    ensures var r := Poll(w.p, Calls(l, w, Fine));
      && (r.pushed.Some? <==> PageOf(w.a.outbox, w.p.lastPollLocal, l.limit, []) != [])
      && (r.pulled.Some? <==> PageOf(w.b.outbox, w.p.lastPollRemote, l.remoteLimit, []) != [])
  {
    hide PageOf, Dropoff, Pickup, Gets, Poll;
    GetsIsDropped(l.from, w.a, l.rpub, w.p.lastPollLocal, l.limit, l.to, w.b);
    GetsIsDropped(l.to, w.b, l.pubsrv, w.p.lastPollRemote, l.remoteLimit, l.from, w.a);
    PollingProofs.PollDoneIff(w.p, Calls(l, w, Fine));
    PollingProofs.PollTransfers(w.p, Calls(l, w, Fine));
  }

  /** How many meetings of the run worked. */
  ghost function WorkingMeets(l: Pair, ws: seq<World>, wes: seq<WorldEvent>): nat
    requires |ws| == |wes| + 1
  {
    if wes == [] then 0
    else
      var n := |wes| - 1;
      WorkingMeets(l, ws[..n + 1], wes[..n]) + if Works(l, ws[n], wes[n]) then 1 else 0
  }

  lemma {:induction false} WorkingAreDone(l: Pair, ws: seq<World>, wes: seq<WorldEvent>)
    requires |ws| == |wes| + 1
    ensures WorkingMeets(l, ws, wes) <= DonePolls(l, ws, wes)
    decreases |wes|
  {
    hide Works, IsDone;
    if wes == [] {
    } else {
      var n := |wes| - 1;
      WorkingAreDone(l, ws[..n + 1], wes[..n]);
      if Works(l, ws[n], wes[n]) { WorkingIsDone(l, ws[n], wes[n]); }
    }
  }
}
