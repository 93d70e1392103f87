/** Flood routing over any network: one message is handled at most once by each node, so the flood ends. */
module Flood {
  import opened Bytes
  import opened OutboxSpec
  import opened Envelope
  import opened NodeSpec
  import opened RecentBuffer
  import opened RouteProofs

  function Copies(crc: bytes -> uint32, h: uint32, q: seq<OutboxMsg>): nat {
    if q == [] then 0
    else Copies(crc, h, q[..|q| - 1]) + if HashOf(crc, q[|q| - 1].msg) == Some(h) then 1 else 0
  }

  lemma {:induction false} CopiesOfExtension(crc: bytes -> uint32, h: uint32, q: seq<OutboxMsg>,
                                             q': seq<OutboxMsg>, g: uint32)
    requires q <= q' && forall i | |q| <= i < |q'| :: HashOf(crc, q'[i].msg) == Some(g)
    ensures Copies(crc, h, q') == Copies(crc, h, q) + if g == h then |q'| - |q| else 0
    decreases |q'|
  {
    hide HashOf;
    if |q'| > |q| {
      CopiesOfExtension(crc, h, q, q'[..|q'| - 1], g);
    } else {
      assert q' == q;
    }
  }

  lemma {:induction false} CopiesOfConcat(crc: bytes -> uint32, h: uint32, a: seq<OutboxMsg>, b: seq<OutboxMsg>)
    ensures Copies(crc, h, a + b) == Copies(crc, h, a) + Copies(crc, h, b)
  {
    hide HashOf;
    if b == [] {
      assert a + b == a;
    } else {
      assert (a + b)[..|a + b| - 1] == a + b[..|b| - 1];
      CopiesOfConcat(crc, h, a, b[..|b| - 1]);
    }
  }

  // What one Route does to window and queue

  /** A message is spread only if its hash is new to the window, and then the hash is in the window. */
  lemma RouteEffect(cfg: Config, st: State, s: bytes)
    requires ShortNames(cfg.patches)
    ensures var st', g := Route(cfg, st, s).0, HashOf(cfg.crc, s);
      && (g.None? || g.value in st.window ==> st' == st)
      && (g.Some? ==> st'.window == After(st.window, g.value))
      && st.outbox <= st'.outbox && |st'.outbox| - |st.outbox| <= FanOut(cfg.patches)
      && forall i | |st.outbox| <= i < |st'.outbox| :: HashOf(cfg.crc, st'.outbox[i].msg) == g
  {
    hide Route, Open, FanOut, HashOf, ShortNames, Hop;
    RouteOutcomeIff(cfg, st, s);
    RouteKeepsQueue(cfg, st, s);
    RouteFanOut(cfg, st, s);
    var st' := Route(cfg, st, s).0;
    forall i | |st.outbox| <= i < |st'.outbox| ensures HashOf(cfg.crc, st'.outbox[i].msg) == HashOf(cfg.crc, s) {
      RouteHops(cfg, st, s, i);
      HopKeepsHash(cfg, s, st'.outbox[i].msg);
    }
  }

  lemma HopKeepsHash(cfg: Config, s: bytes, s': bytes)
    requires ShortNames(cfg.patches) && Hop(cfg.patches, s, s')
    ensures HashOf(cfg.crc, s') == HashOf(cfg.crc, s)
  {
    hide Open, Redirect, Seal, ShortNames;
    HopKeepsContent(cfg.patches, s, s');
  }

  // The network

  /**
   * The nodes and, for one hash, which nodes handled it, how often it was handled, how many other hashes each
   * node newly inserted, and how many records with it were ever queued.
   */
  datatype Net = Net(nodes: seq<State>, handled: set<nat>, handlings: nat, others: seq<nat>, queued: nat)

  datatype NetEvent =
    | Arrives(n: nat, s: bytes)  // any bytes reach node n, from whatever node's queue and however often
    | Sends(n: nat, records: seq<OutboxMsg>)  // node n queues records of its own, of other hashes
    | Flushes(n: nat, cutoff: int)  // node n's policy flushes its queue

  ghost predicate Possible(crc: bytes -> uint32, h: uint32, net: Net, e: NetEvent) {
    e.n < |net.nodes| && (e.Sends? ==> Copies(crc, h, e.records) == 0)
  }

  ghost predicate Shaped(cfgs: seq<Config>, crc: bytes -> uint32, fan: nat, net: Net) {
    && |cfgs| == |net.nodes| == |net.others|
    && forall n | 0 <= n < |cfgs| ::
         cfgs[n].crc == crc && ShortNames(cfgs[n].patches) && FanOut(cfgs[n].patches) <= fan
  }

  ghost function NetStep(cfgs: seq<Config>, crc: bytes -> uint32, h: uint32, net: Net, e: NetEvent): Net
    requires |cfgs| == |net.nodes| == |net.others| && Possible(crc, h, net, e)
  {
    var st := net.nodes[e.n];
    match e
    case Sends(n, records) => net.(nodes := net.nodes[n := st.(outbox := st.outbox + records)])
    case Flushes(n, cutoff) => net.(nodes := net.nodes[n := st.(outbox := Flushed(st.outbox, cutoff))])
    case Arrives(n, s) =>
      var st' := Route(cfgs[n], st, s).0;
      var added := Copies(crc, h, st'.outbox) - Copies(crc, h, st.outbox);
      var net' := net.(nodes := net.nodes[n := st'], queued := if added > 0 then net.queued + added else net.queued);
      if !Fresh(crc, st.window, s) then net'
      else if HashOf(crc, s) == Some(h) then net'.(handled := net.handled + {n}, handlings := net.handlings + 1)
      else net'.(others := net.others[n := net.others[n] + 1])
  }

  /** The nets of a run, one more than its events. */
  ghost predicate NetRun(cfgs: seq<Config>, crc: bytes -> uint32, h: uint32, fan: nat,
                         nets: seq<Net>, es: seq<NetEvent>)
  {
    && |nets| == |es| + 1
    && (forall i | 0 <= i < |nets| :: Shaped(cfgs, crc, fan, nets[i]))
    && (forall i | 0 <= i < |es| ::
          Possible(crc, h, nets[i], es[i]) && nets[i + 1] == NetStep(cfgs, crc, h, nets[i], es[i]))
  }

  ghost predicate Quiet(net: Net) {
    forall n | 0 <= n < |net.others| :: net.others[n] < GUARANTEE
  }

  ghost predicate NodeInvariant(net: Net, h: uint32, n: nat)
    requires n < |net.nodes| && n < |net.others|
  {
    && Sound(net.nodes[n].window)
    && (n in net.handled ==> exists k: nat :: k <= net.others[n] && Behind(net.nodes[n].window, h, k))
  }

  ghost predicate Invariant(net: Net, h: uint32, fan: nat) {
    && |net.nodes| == |net.others|
    && (forall n | 0 <= n < |net.nodes| :: NodeInvariant(net, h, n))
    && (forall n | n in net.handled :: n < |net.nodes|)
    && net.handlings == |net.handled|
    && net.queued <= 1 + fan * net.handlings
  }

  lemma ArrivalKeepsNode(net: Net, h: uint32, n: nat, g: uint32, net': Net)
    requires n < |net.nodes| == |net'.nodes| && |net.others| == |net'.others| == |net.nodes|
    requires NodeInvariant(net, h, n) && net'.others[n] < GUARANTEE
    requires net'.nodes[n].window == After(net.nodes[n].window, g)
    requires g in net.nodes[n].window ==> net'.handled == net.handled && net'.others[n] == net.others[n]
    requires g !in net.nodes[n].window && g == h ==>
               net'.handled == net.handled + {n} && net'.others[n] == net.others[n]
    requires g !in net.nodes[n].window && g != h ==>
               net'.handled == net.handled && net'.others[n] == net.others[n] + 1
    ensures NodeInvariant(net', h, n)
    ensures g !in net.nodes[n].window && g == h ==> n !in net.handled
  {
    var w := net.nodes[n].window;
    if n in net.handled {
      var k: nat :| k <= net.others[n] && Behind(w, h, k);
      ArrivalRetains(w, h, k, g);
      assert Behind(After(w, g), h, if g in w then k else k + 1);
    } else if n in net'.handled {
      assert Behind(After(w, g), h, 0);
    }
  }

  lemma QueueGrowth(cfg: Config, h: uint32, fan: nat, st: State, s: bytes)
    requires ShortNames(cfg.patches) && FanOut(cfg.patches) <= fan
    ensures var added := Copies(cfg.crc, h, Route(cfg, st, s).0.outbox) - Copies(cfg.crc, h, st.outbox);
      0 <= added <= if Fresh(cfg.crc, st.window, s) && HashOf(cfg.crc, s) == Some(h) then fan else 0
  {
    hide Route, HashOf, FanOut, Copies;
    RouteEffect(cfg, st, s);
    var g := HashOf(cfg.crc, s);
    if g.Some? {
      CopiesOfExtension(cfg.crc, h, st.outbox, Route(cfg, st, s).0.outbox, g.value);
    }
  }

  lemma StepOthersGrow(cfgs: seq<Config>, crc: bytes -> uint32, h: uint32, fan: nat, net: Net, e: NetEvent)
    requires Shaped(cfgs, crc, fan, net) && Possible(crc, h, net, e)
    requires Quiet(NetStep(cfgs, crc, h, net, e))
    ensures Quiet(net)
  {
    hide Route, HashOf, Copies, FanOut, ShortNames, Flushed;
    var net' := NetStep(cfgs, crc, h, net, e);
    forall n | 0 <= n < |net.others| ensures net.others[n] < GUARANTEE {
      assert net.others[n] <= net'.others[n] < GUARANTEE;
    }
  }

  lemma StepKeepsInvariant(cfgs: seq<Config>, crc: bytes -> uint32, h: uint32, fan: nat, net: Net, e: NetEvent)
    requires Shaped(cfgs, crc, fan, net) && Possible(crc, h, net, e) && Invariant(net, h, fan)
    requires Quiet(NetStep(cfgs, crc, h, net, e))
    ensures Invariant(NetStep(cfgs, crc, h, net, e), h, fan)
  {
    hide Route, HashOf, Copies, FanOut, After, NodeInvariant, ShortNames, Flushed;
    var net' := NetStep(cfgs, crc, h, net, e);
    forall n | 0 <= n < |net.nodes| && n != e.n ensures NodeInvariant(net', h, n) {
      SameNode(net, net', h, n);
    }
    match e {
      case Sends(n, _) => SameNode(net, net', h, n);
      case Flushes(n, _) => SameNode(net, net', h, n);
      case Arrives(n, s) => ArrivalKeepsInvariant(cfgs, crc, h, fan, net, n, s);
    }
  }

  lemma ArrivalKeepsInvariant(cfgs: seq<Config>, crc: bytes -> uint32, h: uint32, fan: nat, net: Net, n: nat, s: bytes)
    requires Shaped(cfgs, crc, fan, net) && Invariant(net, h, fan) && n < |net.nodes|
    requires Quiet(NetStep(cfgs, crc, h, net, Arrives(n, s)))
    ensures var net' := NetStep(cfgs, crc, h, net, Arrives(n, s));
      && NodeInvariant(net', h, n)
      && net'.handlings == |net'.handled|
      && net'.queued <= 1 + fan * net'.handlings
  {
    hide Route, HashOf, Copies, FanOut, After, NodeInvariant, ShortNames;
    var net', st, g := NetStep(cfgs, crc, h, net, Arrives(n, s)), net.nodes[n], HashOf(crc, s);
    RouteEffect(cfgs[n], st, s);
    QueueGrowth(cfgs[n], h, fan, st, s);
    if g.Some? {
      SeenAgain(st.window, g.value);
      ArrivalKeepsNode(net, h, n, g.value, net');
    } else {
      SameNode(net, net', h, n);
    }
    if Fresh(crc, st.window, s) && g == Some(h) {
      assert |net.handled + {n}| == |net.handled| + 1;
      assert fan * (net.handlings + 1) == fan * net.handlings + fan;
    }
  }

  lemma SameNode(net: Net, net': Net, h: uint32, n: nat)
    requires n < |net.nodes| == |net'.nodes| && |net.others| == |net'.others| == |net.nodes|
    requires NodeInvariant(net, h, n)
    requires net'.nodes[n].window == net.nodes[n].window && net'.others[n] == net.others[n]
    requires n in net'.handled <==> n in net.handled
    ensures NodeInvariant(net', h, n)
  {}

  lemma {:induction false} RunKeepsInvariant(cfgs: seq<Config>, crc: bytes -> uint32, h: uint32, fan: nat,
                                             nets: seq<Net>, es: seq<NetEvent>)
    requires NetRun(cfgs, crc, h, fan, nets, es) && Invariant(nets[0], h, fan) && Quiet(nets[|es|])
    ensures Invariant(nets[|es|], h, fan)
    decreases |es|
  {
    hide Shaped, Possible, NetStep, Invariant, Quiet;
    if es == [] {
    } else {
      var n := |es| - 1;
      StepOthersGrow(cfgs, crc, h, fan, nets[n], es[n]);
      RunKeepsInvariant(cfgs, crc, h, fan, nets[..n + 1], es[..n]);
      StepKeepsInvariant(cfgs, crc, h, fan, nets[n], es[n]);
    }
  }

  lemma {:induction false} FewNodes(handled: set<nat>, n: nat)
    requires forall i | i in handled :: i < n
    ensures |handled| <= n
    decreases n
  {
    if n > 0 {
      FewNodes(handled - {n - 1}, n - 1);
      if n - 1 in handled { assert |handled - {n - 1}| == |handled| - 1; }
    } else {
      assert handled == {};
    }
  }

  /**
   * After one send, over any patches - cycles included - and any arrivals, as long as fewer than 3072 other new
   * hashes reach each node: no node routes the message past its loop check twice, and with N nodes of fan-out at
   * most fan it is queued at most 1 + N * fan times.
   */
  lemma FloodTerminates(cfgs: seq<Config>, crc: bytes -> uint32, h: uint32, fan: nat, nets: seq<Net>, es: seq<NetEvent>)
    requires NetRun(cfgs, crc, h, fan, nets, es)
    requires var start := nets[0];
      && start.handled == {} && start.handlings == 0 && start.queued == 1
      && forall n | 0 <= n < |cfgs| :: Sound(start.nodes[n].window)
    requires Quiet(nets[|es|])
    ensures var end := nets[|es|];
      && end.handlings == |end.handled| <= |cfgs|
      && end.queued <= 1 + |cfgs| * fan
  {
    hide Shaped, Possible, NetStep, Quiet;
    var start, end := nets[0], nets[|es|];
    ShapedSizes(cfgs, crc, fan, start);
    ShapedSizes(cfgs, crc, fan, end);
    RunKeepsInvariant(cfgs, crc, h, fan, nets, es);
    FewNodes(end.handled, |cfgs|);
    TimesFan(fan, end.handlings, |cfgs|);
  }

  lemma TimesFan(fan: nat, k: nat, n: nat)
    requires k <= n
    ensures fan * k <= n * fan
  {
    assert fan * (n - k) >= 0;
    assert fan * (n - k) == fan * n - fan * k;
  }

  lemma ShapedSizes(cfgs: seq<Config>, crc: bytes -> uint32, fan: nat, net: Net)
    requires Shaped(cfgs, crc, fan, net)
    ensures |net.nodes| == |net.others| == |cfgs|
  {}
}
