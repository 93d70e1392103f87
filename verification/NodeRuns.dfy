/** A node's whole run: any messages heard in any order and again, with passes, reads and sends in between. */
module NodeRuns {
  import opened Bytes
  import opened OutboxSpec
  import opened Envelope
  import opened Reassembly
  import opened ReassemblyProofs
  import opened NodeSpec
  import opened RouteProofs
  import opened Delivery
  import RecentBuffer

  datatype NodeEvent =
    | Hear(s: bytes)                               // any bytes reach the router
    | Assemble(order: seq<uint32>)
    | Read(n: nat)                                 // the application reads from Out
    | Aside(outbox: seq<OutboxMsg>, ticks: nat)    // the node sends, or flushes its queue

  /** Whatever the node stores as a fragment is one of an honest stream; other messages are not restricted. */
  ghost predicate Possible(cfg: Config, ss: Sources, st: State, e: NodeEvent) {
    match e
    case Hear(s) => Tame(cfg, ss, s)
    case Assemble(order) => forall id :: id in order <==> id in st.rx.streams
    case Read(n) => n <= |st.rx.out|
    case Aside(_, _) => true
  }

  ghost function NodeStep(cfg: Config, st: State, e: NodeEvent): State {
    match e
    case Hear(s) => Route(cfg, st, s).0
    case Assemble(order) =>
      var p := Pass(st.rx, order);
      if p.Passed? then st.(rx := p.rx) else st
    case Read(n) => if n <= |st.rx.out| then st.(rx := st.rx.(out := st.rx.out[n..])) else st
    case Aside(outbox, ticks) => st.(outbox := outbox, ticks := ticks)
  }

  /** What the step delivers. */
  ghost function StepLog(st: State, e: NodeEvent): seq<(uint32, Msg)> {
    if e.Assemble? && Pass(st.rx, e.order).Passed? then Pass(st.rx, e.order).done else []
  }

  /** The states of a run. */
  ghost predicate Steps(cfg: Config, sts: seq<State>, es: seq<NodeEvent>) {
    && |sts| == |es| + 1
    && forall i | 0 <= i < |es| :: sts[i + 1] == NodeStep(cfg, sts[i], es[i])
  }

  /** The run of a node that starts with nothing stored. */
  ghost predicate NodeRun(cfg: Config, ss: Sources, sts: seq<State>, es: seq<NodeEvent>) {
    && Steps(cfg, sts, es) && sts[0].rx == EMPTY.rx
    && forall i | 0 <= i < |es| :: Possible(cfg, ss, sts[i], es[i])
  }

  /** What the run has delivered, oldest first. */
  ghost function NodeLog(sts: seq<State>, es: seq<NodeEvent>): seq<(uint32, Msg)>
    requires |sts| == |es| + 1
  {
    if es == [] then []
    else
      var n := |es| - 1;
      NodeLog(sts[..n + 1], es[..n]) + StepLog(sts[n], es[n])
  }

  /** How often fragment k of a stream was received under a nonce not seen recently. */
  ghost function TimesTaken(cfg: Config, sts: seq<State>, es: seq<NodeEvent>, id: uint32, k: nat): nat
    requires |sts| == |es| + 1
  {
    if es == [] then 0
    else
      var n := |es| - 1;
      TimesTaken(cfg, sts[..n + 1], es[..n], id, k) + if Takes(cfg, sts[n], es[n], id, k) then 1 else 0
  }

  /** The step stores fragment k of stream id. */
  ghost predicate Takes(cfg: Config, st: State, e: NodeEvent, id: uint32, k: nat) {
    && e.Hear? && Fresh(cfg.crc, st.window, e.s)
    && Stores(cfg, e.s) && StreamIn(cfg, e.s) == id && NumberIn(cfg, e.s) == k
  }

  // The run as a run of the receiver

  /** What hearing s puts on Out. */
  ghost function PutOut(cfg: Config, st: State, s: bytes): seq<Msg> {
    var before, after := st.rx.out, Route(cfg, st, s).0.rx.out;
    if |before| <= |after| then after[|before|..] else []
  }

  /** The receiver's events that explain the step. */
  ghost function Explains(cfg: Config, st: State, e: NodeEvent): seq<Event> {
    match e
    case Hear(s) =>
      if Fresh(cfg.crc, st.window, s) && Stores(cfg, s) then [Arrive(StreamIn(cfg, s), NumberIn(cfg, s))]
      else if PutOut(cfg, st, s) == [] then [] else [Offer(PutOut(cfg, st, s))]
    case Assemble(order) => [Reassemble(order)]
    case Read(n) => [Take(n)]
    case Aside(_, _) => []
  }

  lemma {:induction false} OfferedExtends(out: seq<Msg>, m: Msg, n: nat)
    ensures var out' := Offered(out, m, n);
      out <= out' && (|out'| > |out| ==> |out'| <= OUT_BUFFER_SIZE)
    decreases n
  {
    if n == 0 {
    } else {
      OfferedExtends(if |out| < OUT_BUFFER_SIZE then out + [m] else out, m, n - 1);
    }
  }

  /** A message that is not stored as a fragment leaves headers and chunks alone; it may be put on Out. */
  lemma OtherHeard(cfg: Config, st: State, s: bytes)
    requires !Stores(cfg, s)
    ensures var ms := PutOut(cfg, st, s);
      && Route(cfg, st, s).0.rx == st.rx.(out := st.rx.out + ms)
      && (ms != [] ==> |st.rx.out| + |ms| <= OUT_BUFFER_SIZE)
  {
    hide Open, Route, ReadHere, Cleared, Readings, Offered;
    RouteKeeps(cfg, st, s);
    if Open(s).Opened? && ReadHere(cfg, Open(s).msg) {
      var m := Open(s).msg;
      ReadHasKey(cfg, m);
      OfferedExtends(st.rx.out, Cleared(cfg, m), Readings(cfg, m));
    }
  }

  lemma ReadHasKey(cfg: Config, m: Msg)
    requires ReadHere(cfg, m)
    ensures TriedKey(cfg, m).Some? && Cleared(cfg, m).chunked == m.chunked
  {}

  ghost function Explained(cfg: Config, sts: seq<State>, es: seq<NodeEvent>): seq<Event>
    requires |sts| == |es| + 1
  {
    if es == [] then []
    else
      var n := |es| - 1;
      Explained(cfg, sts[..n + 1], es[..n]) + Explains(cfg, sts[n], es[n])
  }

  lemma StepExplained(cfg: Config, ss: Sources, st: State, e: NodeEvent, sys: Sys)
    requires Possible(cfg, ss, st, e) && sys.rx == st.rx
    requires Honest(ss, sys.rx) && HonestLog(ss, sys.log)
    ensures var ev, after := Explains(cfg, st, e), Sys(NodeStep(cfg, st, e).rx, sys.log + StepLog(st, e));
      if ev == [] then after == sys
      else |ev| == 1 && Enabled(ss, sys, ev[0]) && Step(ss, sys, ev[0]) == Some(after)
  {
    hide HandleChunked, Fragment, SourcePieces, Pass, Route, Honest, HonestLog, Fresh, Stores, StreamIn, NumberIn;
    hide PutOut;
    assert sys.log + [] == sys.log;
    match e {
      case Hear(s) =>
        if Stores(cfg, s) {
          hide Carries;
          CarriedRouted(cfg, ss, st, s, StreamIn(cfg, s), NumberIn(cfg, s));
          CarriesEnabled(cfg, ss, s, StreamIn(cfg, s), NumberIn(cfg, s));
          if !Fresh(cfg.crc, st.window, s) { NotFreshSame(cfg, st, s); }
        } else {
          OtherHeard(cfg, st, s);
        }
      case Assemble(order) => PassHonest(ss, sys.rx, order);
      case Read(n) =>
      case Aside(_, _) =>
    }
  }

  lemma CarriesEnabled(cfg: Config, ss: Sources, s: bytes, id: uint32, k: nat)
    requires Carries(cfg, ss, s, id, k)
    ensures id in ss && k <= |SourcePieces(ss[id])|
  {}

  lemma NotFreshSame(cfg: Config, st: State, s: bytes)
    requires !Fresh(cfg.crc, st.window, s)
    ensures Route(cfg, st, s).0.rx == st.rx && PutOut(cfg, st, s) == []
  {
    hide Route;
    RouteKeeps(cfg, st, s);
  }

  /** A node's run is a run of the receiver, with the same storage and the same deliveries. */
  lemma {:induction false} NodeRefinesReceiver(cfg: Config, ss: Sources, sts: seq<State>, es: seq<NodeEvent>)
    requires NodeRun(cfg, ss, sts, es)
    ensures Run(ss, EMPTY, Explained(cfg, sts, es)) == Ran(Sys(sts[|es|].rx, NodeLog(sts, es)))
    decreases |es|
  {
    hide Possible, NodeStep, StepLog, Explains, Enabled, Step, Honest, HonestLog;
    if es == [] {
      assert Run(ss, EMPTY, []) == Ran(EMPTY);
    } else {
      var n := |es| - 1;
      var before := Explained(cfg, sts[..n + 1], es[..n]);
      NodeRefinesReceiver(cfg, ss, sts[..n + 1], es[..n]);
      DeliveredIsOriginal(ss, before);
      StepExplained(cfg, ss, sts[n], es[n], Run(ss, EMPTY, before).sys);
      var ev := Explains(cfg, sts[n], es[n]);
      if ev == [] {
        assert before + [] == before;
      } else {
        assert before + ev == before + [ev[0]];
        assert (before + ev)[..|before|] == before;
      }
    }
  }

  lemma {:induction false} ArrivalsExplained(cfg: Config, sts: seq<State>, es: seq<NodeEvent>, id: uint32, k: nat)
    requires |sts| == |es| + 1
    ensures Arrivals(Explained(cfg, sts, es), id, k) == TimesTaken(cfg, sts, es, id, k)
    decreases |es|
  {
    hide Fresh;
    if es == [] {
    } else {
      var n := |es| - 1;
      var before, ev := Explained(cfg, sts[..n + 1], es[..n]), Explains(cfg, sts[n], es[n]);
      ArrivalsExplained(cfg, sts[..n + 1], es[..n], id, k);
      if ev == [] {
        assert before + ev == before;
      } else {
        assert (before + ev)[..|before|] == before;
      }
    }
  }

  /**
   * Whatever a node hears and does, if only the fragments it stores are honest, everything it delivers is the
   * original content of its stream, at most once for each time any one of the stream's fragments came in under a new
   * nonce, and all else on Out came whole.
   */
  lemma NodeDeliversOriginal(cfg: Config, ss: Sources, sts: seq<State>, es: seq<NodeEvent>, id: uint32, k: nat)
    requires NodeRun(cfg, ss, sts, es)
    ensures Honest(ss, sts[|es|].rx) && HonestLog(ss, NodeLog(sts, es))
    ensures id !in ss ==> Deliveries(NodeLog(sts, es), id) == 0
    ensures id in ss && k <= |SourcePieces(ss[id])| ==>
              Deliveries(NodeLog(sts, es), id) <= TimesTaken(cfg, sts, es, id, k)
    ensures forall m | m in sts[|es|].rx.out :: Accounted(ss, Explained(cfg, sts, es), m)
  {
    hide Honest, HonestLog, Run, NodeRun, NodeLog, Deliveries, Explained, TimesTaken, Arrivals;
    hide Accounted, Held, SourcePieces;
    RunEnds(cfg, ss, sts, es);
    var events := Explained(cfg, sts, es);
    NodeRefinesReceiver(cfg, ss, sts, es);
    DeliveredIsOriginal(ss, events);
    OutIsAccountedFor(ss, events);
    if id !in ss {
      NoneOfUnknown(ss, NodeLog(sts, es), id);
    } else if k <= |SourcePieces(ss[id])| {
      DeliveredAtMostOncePerFragment(ss, events, id, k);
      ArrivalsExplained(cfg, sts, es, id, k);
    }
  }

  lemma {:induction false} NoneOfUnknown(ss: Sources, log: seq<(uint32, Msg)>, id: uint32)
    requires HonestLog(ss, log) && id !in ss
    ensures Deliveries(log, id) == 0
  {
    if log == [] {
    } else {
      NoneOfUnknown(ss, log[..|log| - 1], id);
    }
  }

  lemma RunEnds(cfg: Config, ss: Sources, sts: seq<State>, es: seq<NodeEvent>)
    requires NodeRun(cfg, ss, sts, es)
    ensures |sts| == |es| + 1
  {}

  // Hearing a message again

  /** How many messages of other hashes came in under a new nonce strictly between the steps i and j. */
  ghost function OthersHeard(cfg: Config, sts: seq<State>, es: seq<NodeEvent>, h: uint32, i: nat, j: nat): nat
    requires |sts| == |es| + 1 && i < j <= |es|
  {
    if j == i + 1 then 0
    else
      OthersHeard(cfg, sts, es, h, i, j - 1) +
      if es[j - 1].Hear? && Fresh(cfg.crc, sts[j - 1].window, es[j - 1].s) && HashOf(cfg.crc, es[j - 1].s) != Some(h)
      then 1 else 0
  }

  lemma JustHeard(w: seq<uint32>, h: uint32)
    requires RecentBuffer.Sound(w) && h !in w
    ensures RecentBuffer.Sound(RecentBuffer.After(w, h)) && RecentBuffer.Behind(RecentBuffer.After(w, h), h, 0)
  {}

  lemma StepWindow(cfg: Config, st: State, e: NodeEvent)
    ensures NodeStep(cfg, st, e).window == if e.Hear? then Arrived(cfg.crc, st.window, e.s) else st.window
  {
    hide Route, Pass, Arrived, Panics, Errs;
    if e.Hear? { RouteOutcomeIff(cfg, st, e.s); }
  }

  /** A message's hash stays in the cache, no further from its end than other messages came in since. */
  lemma {:induction false} StaysInCache(cfg: Config, sts: seq<State>, es: seq<NodeEvent>, i: nat, m: nat, h: uint32)
    requires Steps(cfg, sts, es) && i < m <= |es| && RecentBuffer.Sound(sts[i].window)
    requires es[i].Hear? && Fresh(cfg.crc, sts[i].window, es[i].s) && HashOf(cfg.crc, es[i].s) == Some(h)
    requires OthersHeard(cfg, sts, es, h, i, m) < RecentBuffer.GUARANTEE
    ensures RecentBuffer.Sound(sts[m].window)
    ensures RecentBuffer.Behind(sts[m].window, h, OthersHeard(cfg, sts, es, h, i, m))
    decreases m
  {
    hide HashOf, NodeStep, RecentBuffer.After, RecentBuffer.Sound, RecentBuffer.Behind;
    StepWindow(cfg, sts[m - 1], es[m - 1]);
    assert sts[(m - 1) + 1] == NodeStep(cfg, sts[m - 1], es[m - 1]);
    if m == i + 1 {
      JustHeard(sts[i].window, h);
    } else {
      StaysInCache(cfg, sts, es, i, m - 1, h);
      var w, k := sts[m - 1].window, OthersHeard(cfg, sts, es, h, i, m - 1);
      IsIn(w, h, k);
      if es[m - 1].Hear? && HashOf(cfg.crc, es[m - 1].s).Some? {
        RecentBuffer.ArrivalRetains(w, h, k, HashOf(cfg.crc, es[m - 1].s).value);
      }
    }
  }

  lemma IsIn(w: seq<uint32>, h: uint32, k: nat)
    requires RecentBuffer.Behind(w, h, k)
    ensures h in w
  {}

  /** A message is taken for new again only after 3072 others of new hashes. */
  lemma HeardAgain(cfg: Config, sts: seq<State>, es: seq<NodeEvent>, i: nat, j: nat)
    requires Steps(cfg, sts, es) && i < j < |es| && RecentBuffer.Sound(sts[i].window)
    requires es[i].Hear? && es[j].Hear? && HashOf(cfg.crc, es[i].s) == HashOf(cfg.crc, es[j].s)
    requires Fresh(cfg.crc, sts[i].window, es[i].s) && Fresh(cfg.crc, sts[j].window, es[j].s)
    ensures OthersHeard(cfg, sts, es, HashOf(cfg.crc, es[i].s).value, i, j) >= RecentBuffer.GUARANTEE
  {
    hide HashOf, RecentBuffer.Sound, RecentBuffer.Behind;
    var h := HashOf(cfg.crc, es[i].s).value;
    if OthersHeard(cfg, sts, es, h, i, j) < RecentBuffer.GUARANTEE {
      StaysInCache(cfg, sts, es, i, j, h);
      IsIn(sts[j].window, h, OthersHeard(cfg, sts, es, h, i, j));
    }
  }

  lemma {:induction false} CacheStaysSound(cfg: Config, sts: seq<State>, es: seq<NodeEvent>, i: nat)
    requires Steps(cfg, sts, es) && i <= |es| && RecentBuffer.Sound(sts[0].window)
    ensures RecentBuffer.Sound(sts[i].window)
    decreases i
  {
    hide HashOf, NodeStep, RecentBuffer.After, RecentBuffer.Sound;
    if i == 0 {
    } else {
      CacheStaysSound(cfg, sts, es, i - 1);
      StepWindow(cfg, sts[i - 1], es[i - 1]);
      assert sts[(i - 1) + 1] == NodeStep(cfg, sts[i - 1], es[i - 1]);
      if es[i - 1].Hear? && HashOf(cfg.crc, es[i - 1].s).Some? {
        AfterSound(sts[i - 1].window, HashOf(cfg.crc, es[i - 1].s).value);
      }
    }
  }

  lemma AfterSound(w: seq<uint32>, h: uint32)
    requires RecentBuffer.Sound(w)
    ensures RecentBuffer.Sound(RecentBuffer.After(w, h))
  {}

  // Delivery

  lemma {:induction false} ExplainedPrefix(cfg: Config, sts: seq<State>, es: seq<NodeEvent>, i: nat)
    requires |sts| == |es| + 1 && i <= |es|
    ensures Explained(cfg, sts[..i + 1], es[..i]) <= Explained(cfg, sts, es)
    decreases |es|
  {
    hide Explains;
    if i == |es| {
      assert sts[..i + 1] == sts && es[..i] == es;
    } else {
      var n := |es| - 1;
      ExplainedPrefix(cfg, sts[..n + 1], es[..n], i);
      assert sts[..n + 1][..i + 1] == sts[..i + 1] && es[..n][..i] == es[..i];
    }
  }

  /** A fragment taken at position i of the run arrives right behind the events of the run's first i steps. */
  lemma TakenArrives(cfg: Config, sts: seq<State>, es: seq<NodeEvent>, i: nat, id: uint32, k: nat)
    requires |sts| == |es| + 1 && i < |es| && Takes(cfg, sts[i], es[i], id, k)
    ensures var before, all := Explained(cfg, sts[..i + 1], es[..i]), Explained(cfg, sts, es);
      |before| < |all| && all[|before|] == Arrive(id, k)
  {
    hide Fresh;
    var before, after := Explained(cfg, sts[..i + 1], es[..i]), Explained(cfg, sts[..i + 2], es[..i + 1]);
    ExplainedPrefix(cfg, sts, es, i + 1);
    assert sts[..i + 2][..i + 1] == sts[..i + 1] && es[..i + 1][..i] == es[..i];
    assert after == before + Explains(cfg, sts[i], es[i]);
  }

  ghost predicate TakenSince(cfg: Config, sts: seq<State>, es: seq<NodeEvent>, start: nat, id: uint32, k: nat)
    requires |sts| == |es| + 1
  {
    exists i :: start <= i < |es| && Takes(cfg, sts[i], es[i], id, k)
  }

  lemma TakenIsArrived(cfg: Config, sts: seq<State>, es: seq<NodeEvent>, start: nat, id: uint32, k: nat)
    requires |sts| == |es| + 1 && start <= |es| && TakenSince(cfg, sts, es, start, id, k)
    ensures ArrivedSince(Explained(cfg, sts, es), |Explained(cfg, sts[..start + 1], es[..start])|, id, k)
  {
    hide Takes, Explained;
    var i :| start <= i < |es| && Takes(cfg, sts[i], es[i], id, k);
    TakenArrives(cfg, sts, es, i, id, k);
    ExplainedPrefix(cfg, sts[..i + 1], es[..i], start);
    assert sts[..i + 1][..start + 1] == sts[..start + 1] && es[..i][..start] == es[..start];
  }

  lemma PrefixRuns(cfg: Config, ss: Sources, sts: seq<State>, es: seq<NodeEvent>, start: nat)
    requires NodeRun(cfg, ss, sts, es) && start <= |es|
    ensures NodeRun(cfg, ss, sts[..start + 1], es[..start])
  {
    hide Possible, NodeStep;
  }

  ghost predicate NotDeliveredSince(sts: seq<State>, es: seq<NodeEvent>, start: nat, id: uint32)
    requires |sts| == |es| + 1 && start <= |es|
  {
    Deliveries(NodeLog(sts, es), id) == Deliveries(NodeLog(sts[..start + 1], es[..start]), id)
  }

  /**
   * Liveness of a node: once every fragment of a stream was received under a new nonce since the step number start,
   * with the stream not delivered in between, the next pass delivers the original content, or finds Out full.
   */
  lemma AllTakenThenDelivered(cfg: Config, ss: Sources, sts: seq<State>, es: seq<NodeEvent>,
                               start: nat, id: uint32, order: seq<uint32>)
    requires NodeRun(cfg, ss, sts, es) && id in ss && start <= |es|
    requires forall k | 0 <= k <= |SourcePieces(ss[id])| :: TakenSince(cfg, sts, es, start, id, k)
    requires NotDeliveredSince(sts, es, start, id)
    requires Possible(cfg, ss, sts[|es|], Assemble(order))
    ensures var p := Pass(sts[|es|].rx, order);
      && p.Passed? && HonestLog(ss, p.done)
      && (Deliveries(p.done, id) == 1 || |p.rx.out| >= OUT_BUFFER_SIZE)
  {
    hide Deliveries, Pass, Honest, HonestLog, SourcePieces, TakenSince, ArrivedSince, Explained, NodeLog, Run;
    var st, events := sts[|es|], Explained(cfg, sts, es);
    var first := |Explained(cfg, sts[..start + 1], es[..start])|;
    PrefixRuns(cfg, ss, sts, es, start);
    NodeRefinesReceiver(cfg, ss, sts, es);
    NodeRefinesReceiver(cfg, ss, sts[..start + 1], es[..start]);
    ExplainedPrefix(cfg, sts, es, start);
    assert events[..first] == Explained(cfg, sts[..start + 1], es[..start]);
    forall k | 0 <= k <= |SourcePieces(ss[id])| ensures ArrivedSince(events, first, id, k) {
      TakenIsArrived(cfg, sts, es, start, id, k);
    }
    AllArrivedThenDelivered(ss, events, first, id, order);
    DeliveredIsOriginal(ss, events);
    PassHonest(ss, st.rx, order);
    PassUsesHeaders(st.rx, order, id);
    LastStep(ss, events, Reassemble(order));
    DeliveriesOfConcat(NodeLog(sts, es), Pass(st.rx, order).done, id);
  }

  lemma LastStep(ss: Sources, es: seq<Event>, e: Event)
    requires Run(ss, EMPTY, es).Ran? && Enabled(ss, Run(ss, EMPTY, es).sys, e)
    ensures var sys, after := Run(ss, EMPTY, es).sys, Run(ss, EMPTY, es + [e]);
      after == if Step(ss, sys, e).None? then Panicked else Ran(Step(ss, sys, e).value)
  {
    hide Step, Enabled;
    assert (es + [e])[..|es|] == es;
  }
}
