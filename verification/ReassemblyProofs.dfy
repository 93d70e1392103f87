/** Every run of the receiver over honest fragments, in any order and with any repetition. */
module ReassemblyProofs {
  import opened Bytes
  import opened Envelope
  import opened Chunking
  import opened Reassembly

  /** Stored headers and chunks are those of the streams they name. */
  ghost predicate Honest(ss: Sources, rx: Rx) {
    && (forall id | id in rx.streams && rx.streams[id].Some? :: HonestStream(ss, id, rx.streams[id].value))
    && (forall id | id in rx.chunks :: HonestChunks(ss, id, rx.chunks[id]))
  }

  ghost predicate HonestStream(ss: Sources, id: uint32, s: Stream) {
    id in ss && s == Stream(|SourcePieces(ss[id])|, ss[id].channel)
  }

  ghost predicate HonestChunks(ss: Sources, id: uint32, cs: map<uint32, bytes>) {
    forall i | i in cs :: id in ss && i < |SourcePieces(ss[id])| && cs[i] == SourcePieces(ss[id])[i]
  }

  // Counting

  function Below(n: nat): (s: set<uint32>)
    requires n < TWO_32
    ensures |s| == n && forall i: uint32 :: i in s <==> i < n
  {
    if n == 0 then {} else Below(n - 1) + {n - 1}
  }

  lemma {:induction false} SmallerSubset<T>(a: set<T>, b: set<T>)
    requires a <= b
    ensures |a| <= |b|
  {
    if a == {} {
    } else {
      var x :| x in a;
      SmallerSubset(a - {x}, b - {x});
    }
  }

  lemma ProperSubset<T>(a: set<T>, b: set<T>)
    requires a < b
    ensures |a| < |b|
  {
    var x :| x in b && x !in a;
    SmallerSubset(a, b - {x});
    assert |b - {x}| == |b| - 1;
  }

  /** With all chunk numbers below n, having n chunks is having every chunk. */
  lemma CountIsCompleteIff(cs: map<uint32, bytes>, n: nat)
    requires n < TWO_32 && forall i | i in cs :: i < n
    ensures |cs| <= n
    ensures |cs| == n <==> forall i: uint32 | i < n :: i in cs
  {
    var keys, all := cs.Keys, Below(n);
    assert |keys| == |cs| && keys <= all;
    if keys == all {
      assert |cs| == n;
    } else {
      ProperSubset(keys, all);
    }
  }

  lemma {:induction false} JoinSnoc(ps: seq<bytes>, p: bytes)
    ensures Join(ps + [p]) == Join(ps) + p
  {
    if ps == [] {
      assert [] + [p] == [p];
      JoinOne(p);
    } else {
      assert (ps + [p])[1..] == ps[1..] + [p];
      JoinSnoc(ps[1..], p);
    }
  }

  lemma {:induction false} AssembleJoins(cs: map<uint32, bytes>, ps: seq<bytes>, n: nat)
    requires n <= |ps| < TWO_32 && forall i: uint32 | i < n :: i in cs && cs[i] == ps[i]
    ensures Assemble(cs, n) == Some(Join(ps[..n]))
  {
    if n == 0 {
    } else {
      AssembleJoins(cs, ps, n - 1);
      assert ps[..n] == ps[..n - 1] + [ps[n - 1]];
      JoinSnoc(ps[..n - 1], ps[n - 1]);
    }
  }

  /** What the application should read: the content, on its channel if it has one. */
  function Expected(s: Source): Msg {
    Msg(s.channel, s.content, s.channel != [], false, false)
  }

  /** The "code broken" branch is unreachable, and what is put together is the original content. */
  lemma VisitHonest(ss: Sources, rx: Rx, id: uint32)
    requires Honest(ss, rx)
    ensures var v := Visit(rx, id);
      && v.Visited? && Honest(ss, v.rx)
      && (v.delivered.Some? ==> id in ss && v.delivered == Some(Expected(ss[id])))
  {
    if Complete(rx, id) {
      var s := rx.streams[id].value;
      var cs, ps := ChunksOf(rx, id), SourcePieces(ss[id]);
      hide Pieces, Assemble;
      CountIsCompleteIff(cs, |ps|);
      AssembleJoins(cs, ps, |ps|);
      assert ps[..|ps|] == ps;
      PiecesPartition(ss[id].content, ss[id].size);
    }
  }

  ghost predicate HonestLog(ss: Sources, log: seq<(uint32, Msg)>) {
    forall i | 0 <= i < |log| :: log[i].0 in ss && log[i].1 == Expected(ss[log[i].0])
  }

  lemma {:induction false} PassHonest(ss: Sources, rx: Rx, order: seq<uint32>)
    requires Honest(ss, rx)
    ensures var p := Pass(rx, order); p.Passed? && Honest(ss, p.rx) && HonestLog(ss, p.done)
  {
    if order == [] {
    } else {
      hide Honest, Visit;
      var n := |order| - 1;
      PassHonest(ss, rx, order[..n]);
      VisitHonest(ss, Pass(rx, order[..n]).rx, order[n]);
    }
  }

  lemma ArriveHonest(ss: Sources, rx: Rx, id: uint32, k: nat)
    requires Honest(ss, rx) && id in ss && k <= |SourcePieces(ss[id])|
    ensures var r := HandleChunked(rx, Fragment(ss[id], id, k)); r.Some? && Honest(ss, r.value)
  {
    hide HandleChunked, Fragment, Pieces;
    FragmentHandled(rx, ss[id], id, k);
  }

  lemma StepHonest(ss: Sources, sys: Sys, e: Event)
    requires Honest(ss, sys.rx) && HonestLog(ss, sys.log) && Enabled(ss, sys, e)
    ensures Step(ss, sys, e).Some?
    ensures Honest(ss, Step(ss, sys, e).value.rx) && HonestLog(ss, Step(ss, sys, e).value.log)
  {
    hide HandleChunked, Fragment, Pass;
    match e {
      case Arrive(id, k) => ArriveHonest(ss, sys.rx, id, k);
      case Reassemble(order) => PassHonest(ss, sys.rx, order);
      case Take(n) =>
      case Offer(ms) =>
    }
  }

  /**
   * Safety of every run: the receiver never panics, and whatever it delivers for a stream is, byte for byte, the
   * content that stream was cut from.
   */
  lemma {:induction false} DeliveredIsOriginal(ss: Sources, es: seq<Event>)
    ensures var r := Run(ss, EMPTY, es);
      && !r.Panicked?
      && (r.Ran? ==> Honest(ss, r.sys.rx) && HonestLog(ss, r.sys.log))
  {
    if es == [] {
    } else {
      hide Honest, HonestLog, Step, Enabled;
      var n := |es| - 1;
      DeliveredIsOriginal(ss, es[..n]);
      var r := Run(ss, EMPTY, es[..n]);
      if r.Ran? && Enabled(ss, r.sys, es[n]) {
        StepHonest(ss, r.sys, es[n]);
      }
    }
  }

  // What the application finds on Out

  /** m is the content of a stream, or was put on Out whole. */
  ghost predicate Accounted(ss: Sources, es: seq<Event>, m: Msg) {
    Original(ss, m) || exists i :: OfferedAt(es, i, m)
  }

  ghost predicate Original(ss: Sources, m: Msg) {
    exists id :: id in ss && m == Expected(ss[id])
  }

  predicate OfferedAt(es: seq<Event>, i: int, m: Msg) {
    0 <= i < |es| && es[i].Offer? && m in es[i].ms
  }

  lemma {:induction false} PassOutputs(ss: Sources, rx: Rx, order: seq<uint32>)
    requires Honest(ss, rx)
    ensures var p := Pass(rx, order);
      && p.Passed? && rx.out <= p.rx.out
      && forall i | |rx.out| <= i < |p.rx.out| :: Original(ss, p.rx.out[i])
  {
    hide Honest, Visit;
    if order == [] {
    } else {
      var n := |order| - 1;
      PassOutputs(ss, rx, order[..n]);
      PassHonest(ss, rx, order[..n]);
      VisitHonest(ss, Pass(rx, order[..n]).rx, order[n]);
      VisitOutputs(Pass(rx, order[..n]).rx, order[n]);
    }
  }

  lemma VisitOutputs(rx: Rx, id: uint32)
    ensures var v := Visit(rx, id);
      v.Visited? ==> v.rx.out == rx.out + if v.delivered.Some? then [v.delivered.value] else []
  {
    hide Assemble;
  }

  lemma StepOutputs(ss: Sources, sys: Sys, e: Event)
    requires Honest(ss, sys.rx) && HonestLog(ss, sys.log) && Enabled(ss, sys, e)
    ensures Step(ss, sys, e).Some?
    ensures forall m | m in Step(ss, sys, e).value.rx.out :: m in sys.rx.out || Accounted(ss, [e], m)
  {
    hide HandleChunked, Fragment, Pass, SourcePieces, Honest, HonestLog;
    StepHonest(ss, sys, e);
    match e {
      case Arrive(id, k) => FragmentHandled(sys.rx, ss[id], id, k);
      case Reassemble(order) =>
        PassOutputs(ss, sys.rx, order);
        var out := Pass(sys.rx, order).rx.out;
        forall m | m in out ensures m in sys.rx.out || Accounted(ss, [e], m) {
          var i :| 0 <= i < |out| && out[i] == m;
          if i < |sys.rx.out| {
            assert sys.rx.out[i] == m;
          } else {
            assert Original(ss, out[i]);
          }
        }
      case Take(n) =>
      case Offer(ms) =>
        forall m | m in ms ensures Accounted(ss, [e], m) { assert OfferedAt([e], 0, m); }
    }
  }

  /** Everything on Out is the original content of a stream, or a message that came whole. */
  lemma {:induction false} OutIsAccountedFor(ss: Sources, es: seq<Event>)
    ensures var r := Run(ss, EMPTY, es);
      r.Ran? ==> forall m | m in r.sys.rx.out :: Accounted(ss, es, m)
  {
    hide Honest, HonestLog, Step, Enabled, Accounted;
    if es == [] {
    } else {
      var n := |es| - 1;
      OutIsAccountedFor(ss, es[..n]);
      DeliveredIsOriginal(ss, es[..n]);
      var r := Run(ss, EMPTY, es[..n]);
      if r.Ran? && Enabled(ss, r.sys, es[n]) {
        StepOutputs(ss, r.sys, es[n]);
        forall m | m in Step(ss, r.sys, es[n]).value.rx.out ensures Accounted(ss, es, m) {
          AccountedLater(ss, es, m);
        }
      }
    }
  }

  lemma AccountedLater(ss: Sources, es: seq<Event>, m: Msg)
    requires es != [] && (Accounted(ss, es[..|es| - 1], m) || Accounted(ss, [es[|es| - 1]], m))
    ensures Accounted(ss, es, m)
  {
    var n := |es| - 1;
    if i :| OfferedAt(es[..n], i, m) {
      assert OfferedAt(es, i, m);
    } else if i :| OfferedAt([es[n]], i, m) {
      assert OfferedAt(es, n, m);
    }
  }

  // At most one delivery for each arrival of a header

  function Deliveries(log: seq<(uint32, Msg)>, id: uint32): nat {
    if log == [] then 0
    else Deliveries(log[..|log| - 1], id) + if log[|log| - 1].0 == id then 1 else 0
  }

  function HeaderArrivals(es: seq<Event>, id: uint32): nat {
    if es == [] then 0
    else HeaderArrivals(es[..|es| - 1], id) + if es[|es| - 1] == Arrive(id, 0) then 1 else 0
  }

  function Pending(rx: Rx, id: uint32): nat {
    if id in rx.streams && rx.streams[id].Some? then 1 else 0
  }

  lemma {:induction false} DeliveriesOfConcat(a: seq<(uint32, Msg)>, b: seq<(uint32, Msg)>, id: uint32)
    ensures Deliveries(a + b, id) == Deliveries(a, id) + Deliveries(b, id)
  {
    if b == [] {
      assert a + b == a;
    } else {
      assert (a + b)[..|a + b| - 1] == a + b[..|b| - 1];
      DeliveriesOfConcat(a, b[..|b| - 1], id);
    }
  }

  lemma DeliveriesSnoc(a: seq<(uint32, Msg)>, x: (uint32, Msg), id: uint32)
    ensures Deliveries(a + [x], id) == Deliveries(a, id) + if x.0 == id then 1 else 0
  {
    assert (a + [x])[..|a|] == a;
  }

  lemma {:induction false} PassUsesHeaders(rx: Rx, order: seq<uint32>, id: uint32)
    ensures var p := Pass(rx, order);
      p.Passed? ==> Deliveries(p.done, id) + Pending(p.rx, id) == Pending(rx, id)
  {
    hide Visit, Pending, Deliveries;
    if order == [] {
      assert Deliveries([], id) == 0 by { NothingPending(id); }
    } else {
      var n := |order| - 1;
      PassUsesHeaders(rx, order[..n], id);
      var front := Pass(rx, order[..n]);
      if front.Passed? {
        VisitUsesHeader(front.rx, order[n], id);
        var v := Visit(front.rx, order[n]);
        if v.Visited? && v.delivered.Some? {
          DeliveriesSnoc(front.done, (order[n], v.delivered.value), id);
        }
      }
    }
  }

  lemma VisitUsesHeader(rx: Rx, visited: uint32, id: uint32)
    ensures var v := Visit(rx, visited);
      v.Visited? ==> Pending(v.rx, id) + (if v.delivered.Some? && visited == id then 1 else 0) == Pending(rx, id)
  {
    hide Assemble;
  }

  lemma StepUsesHeaders(ss: Sources, sys: Sys, e: Event, id: uint32)
    requires Enabled(ss, sys, e) && Step(ss, sys, e).Some?
    ensures var sys' := Step(ss, sys, e).value;
      Deliveries(sys'.log, id) + Pending(sys'.rx, id)
      <= Deliveries(sys.log, id) + Pending(sys.rx, id) + if e == Arrive(id, 0) then 1 else 0
  {
    hide HandleChunked, Pass, Deliveries, Fragment, Pieces;
    match e {
      case Arrive(sid, k) => FragmentHandled(sys.rx, ss[sid], sid, k);
      case Reassemble(order) =>
        var p := Pass(sys.rx, order);
        PassUsesHeaders(sys.rx, order, id);
        DeliveriesOfConcat(sys.log, p.done, id);
      case Take(n) =>
      case Offer(ms) =>
    }
  }

  lemma {:induction false} DeliveredAtMostOncePerHeader(ss: Sources, es: seq<Event>, id: uint32)
    ensures var r := Run(ss, EMPTY, es);
      r.Ran? ==> Deliveries(r.sys.log, id) + Pending(r.sys.rx, id) <= HeaderArrivals(es, id)
  {
    if es != [] {
      hide Step, Enabled, Pending, Deliveries;
      var n := |es| - 1;
      DeliveredAtMostOncePerHeader(ss, es[..n], id);
      var r := Run(ss, EMPTY, es[..n]);
      if r.Ran? && Enabled(ss, r.sys, es[n]) && Step(ss, r.sys, es[n]).Some? {
        StepUsesHeaders(ss, r.sys, es[n], id);
      }
    } else {
      NothingPending(id);
    }
  }

  lemma NothingPending(id: uint32)
    ensures Deliveries([], id) == 0 && Pending(EMPTY.rx, id) == 0
  {}

  // Delivery

  ghost predicate Stored(ss: Sources, rx: Rx, id: uint32, k: nat)
    requires id in ss
  {
    if k == 0 then Pending(rx, id) == 1 else k - 1 < TWO_32 && (k - 1) in ChunksOf(rx, id)
  }

  ghost predicate AllStored(ss: Sources, rx: Rx, id: uint32) {
    id in ss && forall k | 0 <= k <= |SourcePieces(ss[id])| :: Stored(ss, rx, id, k)
  }

  /** The counting test answers "complete" exactly when the header and every chunk are stored. */
  lemma CompleteIffAllStored(ss: Sources, rx: Rx, id: uint32)
    requires Honest(ss, rx)
    ensures Complete(rx, id) <==> AllStored(ss, rx, id)
  {
    hide Pieces;
    if AllStored(ss, rx, id) {
      assert Stored(ss, rx, id, 0);
    }
    if Pending(rx, id) == 1 {
      var n, cs := |SourcePieces(ss[id])|, ChunksOf(rx, id);
      CountIsCompleteIff(cs, n);
      assert |cs| <= n && Low32(|cs|) == |cs|;
      if AllStored(ss, rx, id) {
        forall i: uint32 | i < n ensures i in cs { assert Stored(ss, rx, id, i + 1); }
      } else if Complete(rx, id) {
        forall k | 0 <= k <= n ensures Stored(ss, rx, id, k) {}
      }
    }
  }

  lemma VisitOutBound(rx: Rx, id: uint32)
    ensures Visit(rx, id).Visited? && |Visit(rx, id).rx.out| > |rx.out| ==> |Visit(rx, id).rx.out| <= 128
  {
    hide Assemble;
  }

  /** A pass never fills Out beyond its 128 places. */
  lemma {:induction false} PassOutBound(rx: Rx, order: seq<uint32>)
    requires |rx.out| <= 128
    ensures Pass(rx, order).Passed? ==> |Pass(rx, order).rx.out| <= 128
  {
    hide Visit;
    if order == [] {
    } else {
      var n := |order| - 1;
      PassOutBound(rx, order[..n]);
      var front := Pass(rx, order[..n]);
      if front.Passed? {
        VisitOutBound(front.rx, order[n]);
        VisitOutputs(front.rx, order[n]);
      }
    }
  }

  lemma VisitOther(rx: Rx, id: uint32, other: uint32)
    requires Visit(rx, other).Visited? && other != id
    ensures var rx' := Visit(rx, other).rx;
      && (Complete(rx', id) <==> Complete(rx, id))
      && |rx'.out| >= |rx.out|
  {
    hide Assemble;
  }

  lemma {:induction false} PassDelivers(ss: Sources, rx: Rx, order: seq<uint32>, id: uint32)
    requires Honest(ss, rx) && Complete(rx, id)
    ensures var p := Pass(rx, order);
      && p.Passed?
      && (Deliveries(p.done, id) == 0 ==> Complete(p.rx, id))
      && (id in order && Deliveries(p.done, id) == 0 ==> |p.rx.out| >= 128)
  {
    hide Honest, Complete, Visit, Deliveries;
    if order == [] {
      NothingPending(id);
    } else {
      var n := |order| - 1;
      PassDelivers(ss, rx, order[..n], id);
      PassHonest(ss, rx, order[..n]);
      var front := Pass(rx, order[..n]);
      VisitHonest(ss, front.rx, order[n]);
      var v := Visit(front.rx, order[n]);
      if v.delivered.Some? { DeliveriesSnoc(front.done, (order[n], v.delivered.value), id); }
      if order[n] != id { VisitOther(front.rx, id, order[n]); } else { VisitSelf(front.rx, id); }
      assert id in order ==> id in order[..n] || order[n] == id;
    }
  }

  lemma VisitSelf(rx: Rx, id: uint32)
    ensures var v := Visit(rx, id);
      v.Visited? && v.delivered.None? ==>
        v.rx == rx && (Complete(rx, id) ==> |rx.out| >= 128)
  {
    hide Assemble;
  }

  // At most one delivery for each arrival of each fragment

  /** How often fragment k of the stream arrived. */
  function Arrivals(es: seq<Event>, id: uint32, k: nat): nat {
    if es == [] then 0
    else Arrivals(es[..|es| - 1], id, k) + if es[|es| - 1] == Arrive(id, k) then 1 else 0
  }

  ghost function Held(ss: Sources, rx: Rx, id: uint32, k: nat): nat
    requires id in ss
  {
    if Stored(ss, rx, id, k) then 1 else 0
  }

  /** A delivery uses up each of the stream's fragments, and only it does. */
  lemma VisitUsesFragment(ss: Sources, rx: Rx, visited: uint32, id: uint32, k: nat)
    requires Honest(ss, rx) && id in ss && k <= |SourcePieces(ss[id])|
    ensures var v := Visit(rx, visited);
      v.Visited? && Held(ss, v.rx, id, k) + (if v.delivered.Some? && visited == id then 1 else 0) == Held(ss, rx, id, k)
  {
    hide Honest, SourcePieces;
    VisitHonest(ss, rx, visited);
    CompleteIffAllStored(ss, rx, id);
    hide Assemble;
  }

  lemma {:induction false} PassUsesFragment(ss: Sources, rx: Rx, order: seq<uint32>, id: uint32, k: nat)
    requires Honest(ss, rx) && id in ss && k <= |SourcePieces(ss[id])|
    ensures var p := Pass(rx, order);
      p.Passed? && Deliveries(p.done, id) + Held(ss, p.rx, id, k) == Held(ss, rx, id, k)
  {
    hide Honest, Visit, Held, Deliveries, SourcePieces;
    if order == [] {
      NothingPending(id);
    } else {
      var n := |order| - 1;
      PassUsesFragment(ss, rx, order[..n], id, k);
      PassHonest(ss, rx, order[..n]);
      var front := Pass(rx, order[..n]);
      VisitUsesFragment(ss, front.rx, order[n], id, k);
      var v := Visit(front.rx, order[n]);
      if v.delivered.Some? { DeliveriesSnoc(front.done, (order[n], v.delivered.value), id); }
    }
  }

  lemma ArriveHolds(ss: Sources, rx: Rx, sid: uint32, j: nat, id: uint32, k: nat)
    requires id in ss && sid in ss && j <= |SourcePieces(ss[sid])|
    ensures var r := HandleChunked(rx, Fragment(ss[sid], sid, j));
      r.Some? && Held(ss, r.value, id, k) <= Held(ss, rx, id, k) + if sid == id && j == k then 1 else 0
  {
    hide HandleChunked, Fragment, Pieces;
    FragmentHandled(rx, ss[sid], sid, j);
  }

  lemma StepUsesFragments(ss: Sources, sys: Sys, e: Event, id: uint32, k: nat)
    requires Honest(ss, sys.rx) && HonestLog(ss, sys.log) && Enabled(ss, sys, e)
    requires id in ss && k <= |SourcePieces(ss[id])|
    ensures Step(ss, sys, e).Some?
    ensures var sys' := Step(ss, sys, e).value;
      Deliveries(sys'.log, id) + Held(ss, sys'.rx, id, k)
      <= Deliveries(sys.log, id) + Held(ss, sys.rx, id, k) + if e == Arrive(id, k) then 1 else 0
  {
    hide HandleChunked, Pass, Deliveries, Fragment, SourcePieces, Honest, HonestLog;
    StepHonest(ss, sys, e);
    match e {
      case Arrive(sid, j) => ArriveHolds(ss, sys.rx, sid, j, id, k);
      case Reassemble(order) =>
        var p := Pass(sys.rx, order);
        PassUsesFragment(ss, sys.rx, order, id, k);
        DeliveriesOfConcat(sys.log, p.done, id);
      case Take(n) =>
      case Offer(ms) =>
    }
  }

  /**
   * In every run a stream is delivered at most once for each arrival of any one of its fragments, header or chunk:
   * a delivery leaves nothing behind that could complete the stream again, or another of the same id.
   */
  lemma {:induction false} DeliveredAtMostOncePerFragment(ss: Sources, es: seq<Event>, id: uint32, k: nat)
    requires id in ss && k <= |SourcePieces(ss[id])|
    ensures var r := Run(ss, EMPTY, es);
      r.Ran? ==> Deliveries(r.sys.log, id) + Held(ss, r.sys.rx, id, k) <= Arrivals(es, id, k)
  {
    hide Step, Enabled, Deliveries, Held, SourcePieces, Honest, HonestLog;
    if es == [] {
      NothingHeld(ss, id, k);
    } else {
      var n := |es| - 1;
      DeliveredAtMostOncePerFragment(ss, es[..n], id, k);
      DeliveredIsOriginal(ss, es[..n]);
      var r := Run(ss, EMPTY, es[..n]);
      if r.Ran? && Enabled(ss, r.sys, es[n]) { StepUsesFragments(ss, r.sys, es[n], id, k); }
    }
  }

  lemma NothingHeld(ss: Sources, id: uint32, k: nat)
    requires id in ss
    ensures Deliveries([], id) == 0 && Held(ss, EMPTY.rx, id, k) == 0
  {}

  /** One step keeps every stored fragment of a stream unless it delivers the stream. */
  lemma StepKeepsStored(ss: Sources, sys: Sys, e: Event, id: uint32, k: nat)
    requires Honest(ss, sys.rx) && HonestLog(ss, sys.log) && Enabled(ss, sys, e)
    requires id in ss && k <= |SourcePieces(ss[id])|
    requires Stored(ss, sys.rx, id, k) || e == Arrive(id, k)
    ensures Step(ss, sys, e).Some?
    ensures var sys' := Step(ss, sys, e).value;
      Deliveries(sys'.log, id) == Deliveries(sys.log, id) ==> Stored(ss, sys'.rx, id, k)
  {
    hide HandleChunked, Pass, Deliveries, Fragment, Pieces, Honest;
    StepHonest(ss, sys, e);
    match e {
      case Arrive(sid, j) => FragmentHandled(sys.rx, ss[sid], sid, j);
      case Reassemble(order) =>
        var p := Pass(sys.rx, order);
        PassKeepsStored(ss, sys.rx, order, id, k);
        DeliveriesOfConcat(sys.log, p.done, id);
      case Take(n) =>
      case Offer(ms) =>
    }
  }

  lemma {:induction false} PassKeepsStored(ss: Sources, rx: Rx, order: seq<uint32>, id: uint32, k: nat)
    requires id in ss && Stored(ss, rx, id, k)
    ensures var p := Pass(rx, order);
      p.Passed? && Deliveries(p.done, id) == 0 ==> Stored(ss, p.rx, id, k)
  {
    if order == [] {
    } else {
      hide Assemble, Complete;
      var n := |order| - 1;
      PassKeepsStored(ss, rx, order[..n], id, k);
      var front := Pass(rx, order[..n]);
      if front.Passed? {
        var v := Visit(front.rx, order[n]);
        if v.Visited? && v.delivered.Some? {
          DeliveriesSnoc(front.done, (order[n], v.delivered.value), id);
        }
      }
    }
  }

  lemma {:induction false} RunKeepsStored(ss: Sources, es: seq<Event>, start: nat, id: uint32, k: nat)
    requires start < |es| && es[start] == Arrive(id, k)
    requires Run(ss, EMPTY, es).Ran? && Run(ss, EMPTY, es[..start]).Ran?
    requires Deliveries(Run(ss, EMPTY, es).sys.log, id) == Deliveries(Run(ss, EMPTY, es[..start]).sys.log, id)
    ensures id in ss && k <= |SourcePieces(ss[id])|
    ensures Stored(ss, Run(ss, EMPTY, es).sys.rx, id, k)
    decreases |es|
  {
    hide Step, Enabled, Stored, Honest, HonestLog, Deliveries, Pieces;
    var n := |es| - 1;
    var r := Run(ss, EMPTY, es[..n]);
    DeliveredIsOriginal(ss, es[..n]);
    LogGrows(ss, es, id);
    if start == n {
      ArriveEnabled(ss, r.sys, id, k);
    } else {
      assert es[..n][..start] == es[..start];
      LogGrowsFrom(ss, es[..n], start, id);
      RunKeepsStored(ss, es[..n], start, id, k);
    }
    StepKeepsStored(ss, r.sys, es[n], id, k);
  }

  lemma ArriveEnabled(ss: Sources, sys: Sys, id: uint32, k: nat)
    requires Enabled(ss, sys, Arrive(id, k))
    ensures id in ss && k <= |SourcePieces(ss[id])|
  {}

  lemma LogGrows(ss: Sources, es: seq<Event>, id: uint32)
    requires es != [] && Run(ss, EMPTY, es).Ran?
    ensures Run(ss, EMPTY, es[..|es| - 1]).Ran?
    ensures Deliveries(Run(ss, EMPTY, es[..|es| - 1]).sys.log, id) <= Deliveries(Run(ss, EMPTY, es).sys.log, id)
  {
    hide Pass, HandleChunked, Fragment, Deliveries;
    var r := Run(ss, EMPTY, es[..|es| - 1]);
    var e := es[|es| - 1];
    if e.Reassemble? {
      DeliveriesOfConcat(r.sys.log, Pass(r.sys.rx, e.order).done, id);
    }
  }

  lemma {:induction false} LogGrowsFrom(ss: Sources, es: seq<Event>, start: nat, id: uint32)
    requires start <= |es| && Run(ss, EMPTY, es).Ran?
    ensures Run(ss, EMPTY, es[..start]).Ran?
    ensures Deliveries(Run(ss, EMPTY, es[..start]).sys.log, id) <= Deliveries(Run(ss, EMPTY, es).sys.log, id)
    decreases |es|
  {
    hide Run, Deliveries;
    if start == |es| {
      assert es[..start] == es;
    } else {
      var n := |es| - 1;
      LogGrows(ss, es, id);
      LogGrowsFrom(ss, es[..n], start, id);
      assert es[..n][..start] == es[..start];
    }
  }

  ghost predicate ArrivedSince(es: seq<Event>, start: nat, id: uint32, k: nat) {
    exists i :: start <= i < |es| && es[i] == Arrive(id, k)
  }

  /**
   * Liveness: if every fragment of a stream has arrived since the run's prefix of length start, and the stream was
   * not delivered since, then the next pass delivers it unless Out is full.
   */
  lemma AllArrivedThenDelivered(ss: Sources, es: seq<Event>, start: nat, id: uint32, order: seq<uint32>)
    requires id in ss && start <= |es| && Run(ss, EMPTY, es).Ran?
    requires forall k | 0 <= k <= |SourcePieces(ss[id])| :: ArrivedSince(es, start, id, k)
    requires Run(ss, EMPTY, es[..start]).Ran?
    requires Deliveries(Run(ss, EMPTY, es).sys.log, id) == Deliveries(Run(ss, EMPTY, es[..start]).sys.log, id)
    requires Enabled(ss, Run(ss, EMPTY, es).sys, Reassemble(order))
    ensures var before, after := Run(ss, EMPTY, es).sys, Run(ss, EMPTY, es + [Reassemble(order)]);
      && after.Ran?
      && (Deliveries(after.sys.log, id) > Deliveries(before.log, id) || |after.sys.rx.out| >= OUT_BUFFER_SIZE)
  {
    hide Deliveries, Pass, HandleChunked, Fragment, Honest, Pieces, Stored, Complete;
    var sys := Run(ss, EMPTY, es).sys;
    DeliveredIsOriginal(ss, es);
    forall k | 0 <= k <= |SourcePieces(ss[id])| ensures Stored(ss, sys.rx, id, k) {
      assert ArrivedSince(es, start, id, k);
      var i :| start <= i < |es| && es[i] == Arrive(id, k);
      LogGrowsFrom(ss, es, i, id);
      LogGrowsFrom(ss, es[..i], start, id);
      assert es[..i][..start] == es[..start];
      RunKeepsStored(ss, es, i, id, k);
    }
    CompleteIffAllStored(ss, sys.rx, id);
    CompleteHasHeader(sys.rx, id);
    PassDelivers(ss, sys.rx, order, id);
    var p := Pass(sys.rx, order);
    assert (es + [Reassemble(order)])[..|es|] == es;
    DeliveriesOfConcat(sys.log, p.done, id);
  }

  lemma CompleteHasHeader(rx: Rx, id: uint32)
    requires Complete(rx, id)
    ensures id in rx.streams
  {}
}
