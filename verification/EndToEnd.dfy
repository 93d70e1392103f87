/** From SendMsg at one node, through polls in both directions, to delivery at another. */
module EndToEnd {
  import opened Bytes
  import opened OutboxSpec
  import opened Envelope
  import opened Chunking
  import opened Reassembly
  import opened ReassemblyProofs
  import opened NodeSpec
  import opened RouteProofs
  import opened NodeProofs
  import opened Delivery
  import opened NodeRuns
  import opened Meetings
  import opened Hearing
  import opened Routing
  import RecentBuffer

  // What was sent, and where the run of polls starts

  /** SendMsg cuts m into a stream of the given id and queues all of it. */
  ghost predicate SendsStream(from: Config, a: State, m: Msg, key: bytes, id: StreamId) {
    && ChunkSizeOf(from.limits) > CHUNK_HEADER && |m.content| < TWO_32 && Oversize(from, m)
    && SendMsg(from, a, m, key).1.Sent? && from.random(a.ticks) == Some(id)
  }

  ghost predicate SendsWhole(from: Config, a: State, m: Msg, key: bytes) {
    !m.chunked && !Oversize(from, m) && SendMsg(from, a, m, key).1.Sent?
  }

  function StreamOf(from: Config, m: Msg): Source {
    SourceOf(m, Low32(ChunkSizeOf(from.limits) - CHUNK_HEADER))
  }

  /** What a' has queued and a had not. */
  function NewRecords(a: State, a': State): seq<OutboxMsg> {
    if |a.outbox| <= |a'.outbox| then a'.outbox[|a.outbox|..] else []
  }

  /**
   * A run of polls that starts behind the sending, at a cursor before the new records; their hashes are their own:
   * not in the other node's cache, not on a message queued before them, not on one that reaches that node from
   * elsewhere. The queue is in time order throughout.
   */
  ghost predicate StartsBehind(l: Pair, a: State, a': State, ws: seq<World>, wes: seq<WorldEvent>) {
    && WorldRun(l, ws, wes) && ws[0].a == a' && Increasing(ws[|wes|].a.outbox)
    && var recs := NewRecords(a, a');
      && (forall r | r in recs :: ws[0].p.lastPollLocal < r.time)
      && (forall r | r in recs :: Fresh(l.to.crc, ws[0].b.window, r.msg))
      && OwnHashes(l.to.crc, a'.outbox, |a.outbox|, Payloads(recs))
      && forall i | 0 <= i < |wes| && wes[i].Receiver? :: NotTheirHash(l.to.crc, Payloads(recs), wes[i].e)
  }

  /** The cursor of the last state has passed all new records. */
  ghost predicate CursorPassed(a: State, a': State, w: World) {
    forall r | r in NewRecords(a, a') :: r.time <= w.p.lastPollLocal
  }

  lemma StartsRun(l: Pair, a: State, a': State, ws: seq<World>, wes: seq<WorldEvent>)
    requires StartsBehind(l, a, a', ws, wes)
    ensures |ws| == |wes| + 1 && ws[0].a == a'
  {}

  lemma OpenedIsLong(crc: bytes -> uint32, w: seq<uint32>, s: bytes)
    requires Fresh(crc, w, s)
    ensures |s| >= 16
  {}

  lemma StartRecords(l: Pair, a: State, w: World)
    requires forall r | r in NewRecords(a, w.a) :: Fresh(l.to.crc, w.b.window, r.msg)
    requires NewRecords(a, w.a) != []
    ensures RecordsIn(w.a.outbox, |a.outbox|, Payloads(NewRecords(a, w.a)))
  {
    hide Fresh;
    var recs := NewRecords(a, w.a);
    forall k | 0 <= k < |recs| ensures w.a.outbox[|a.outbox| + k].msg == Payloads(recs)[k] && |recs[k].msg| >= 16 {
      assert recs[k] in recs;
      OpenedIsLong(l.to.crc, w.b.window, recs[k].msg);
    }
  }

  lemma StartPassed(a: State, w: World)
    requires NewRecords(a, w.a) != [] && forall r | r in NewRecords(a, w.a) :: w.p.lastPollLocal < r.time
    ensures PassedUpTo(w, |a.outbox|)
  {
    var recs, q, at := NewRecords(a, w.a), w.a.outbox, |a.outbox|;
    assert q[|q| - 1] == recs[|recs| - 1] && recs[|recs| - 1] in recs;
    forall j | at <= j < |q| ensures w.p.lastPollLocal < q[j].time {
      assert q[j] == recs[j - at] && recs[j - at] in recs;
    }
  }

  lemma StartFresh(cfg: Config, sts: seq<State>, es: seq<NodeEvent>, recs: seq<OutboxMsg>, at: nat)
    requires |sts| == |es| + 1 && forall r | r in recs :: Fresh(cfg.crc, sts[|es|].window, r.msg)
    ensures NoneMissed(cfg, sts, es, |es|, Payloads(recs)) && HeardUpTo(cfg, sts, es, |es|, at, Payloads(recs), at)
  {
    hide Fresh, HeardNew;
    assert forall k | 0 <= k < |recs| :: recs[k] in recs;
  }

  lemma StartTracked(l: Pair, a: State, a': State, ws: seq<World>, wes: seq<WorldEvent>, sts: seq<State>,
                     es: seq<NodeEvent>)
    requires StartsBehind(l, a, a', ws, wes) && NewRecords(a, a') != []
    requires Steps(l.to, sts, es) && sts[|es|] == ws[0].b
    ensures Tracked(l, ws[0], sts, es, |es|, |a.outbox|, Payloads(NewRecords(a, a')), |a.outbox|)
  {
    hide Steps, WorldRun, Increasing, Fresh, OwnHashes, NoneMissed, HeardUpTo, RecordsIn, PassedUpTo, NewRecords;
    StepsEnd(l.to, sts, es);
    StartsRun(l, a, a', ws, wes);
    StartRecords(l, a, ws[0]);
    StartPassed(a, ws[0]);
    StartFresh(l.to, sts, es, NewRecords(a, a'), |a.outbox|);
  }

  /** A new record that the cursor has passed was heard by the other node, under a new nonce. */
  lemma RecordsHeard(l: Pair, ss: Sources, a: State, a': State, ws: seq<World>, wes: seq<WorldEvent>, sts: seq<State>,
                     es: seq<NodeEvent>)
    returns (sts': seq<State>, es': seq<NodeEvent>)
    requires StartsBehind(l, a, a', ws, wes) && NewRecords(a, a') != [] && CursorPassed(a, a', ws[|wes|])
    requires Steps(l.to, sts, es) && sts[|es|] == ws[0].b
    ensures Steps(l.to, sts', es') && sts <= sts' && es <= es' && sts'[|es'|] == ws[|wes|].b
    ensures forall r | r in NewRecords(a, a') :: HeardNew(l.to, sts', es', |es|, r.msg)
    ensures NodeLog(sts', es') == NodeLog(sts, es) + WorldLog(ws, wes)
    ensures HonestWorld(l, ss, ws, wes) ==> PossibleSince(l.to, ss, sts', es', |es|)
  {
    hide Steps, WorldRun, Increasing, Fresh, OwnHashes, HeardNew, NodeLog, WorldLog, HonestWorld, PossibleSince;
    hide NotTheirHash, Tracked;
    StartsRun(l, a, a', ws, wes);
    StepsEnd(l.to, sts, es);
    StartTracked(l, a, a', ws, wes, sts, es);
    var recs, at := NewRecords(a, a'), |a.outbox|;
    var c;
    sts', es', c := WorldHeard(l, ss, ws, wes, sts, es, at, Payloads(recs));
    TrackedEnds(l, ws[|wes|], sts', es', |es|, at, Payloads(recs), c);
    WorldGrows(l, ws, wes);
    PassedAreHeard(l, ws[|wes|], sts', es', |es|, a, a', c);
  }

  lemma PassedAreHeard(l: Pair, w: World, sts: seq<State>, es: seq<NodeEvent>, start: nat, a: State, a': State, c: nat)
    requires Tracked(l, w, sts, es, start, |a.outbox|, Payloads(NewRecords(a, a')), c)
    requires a'.outbox <= w.a.outbox && CursorPassed(a, a', w)
    ensures |sts| == |es| + 1
    ensures forall r | r in NewRecords(a, a') :: HeardNew(l.to, sts, es, start, r.msg)
  {
    hide Steps, OwnHashes, HeardNew, NoneMissed, RecordsIn;
    StepsEnd(l.to, sts, es);
    var recs, at := NewRecords(a, a'), |a.outbox|;
    forall r | r in recs ensures HeardNew(l.to, sts, es, start, r.msg) {
      var k :| 0 <= k < |recs| && recs[k] == r;
      assert w.a.outbox[at + k] == a'.outbox[at + k] == r;
      assert HeardNew(l.to, sts, es, start, Payloads(recs)[k]);
    }
  }

  // The whole way of a chunked message

  lemma StreamRecords(from: Config, a: State, m: Msg, key: bytes, id: StreamId)
    requires SendsStream(from, a, m, key, id)
    ensures StreamOf(from, m).size > 0
    ensures var a' := SendMsg(from, a, m, key).0;
      var recs, ms := NewRecords(a, a'), Fragments(m, id, StreamOf(from, m).size);
      && a'.outbox == a.outbox + recs && |recs| == |ms| > 0
      && forall k | 0 <= k < |ms| :: RecordAt(from, key, ms[k], recs[k], (a.ticks + 1) + k)
  {
    hide SendMsg, ChunkSizeOf, RecordAt, Pieces;
    SendMsgQueues(from, a, m, key);
  }

  /** The records carry the stream's fragments to the receiver, one each. */
  lemma RecordsCarry(from: Config, a: State, m: Msg, key: bytes, id: StreamId, to: Config, ss: Sources)
    requires SendsStream(from, a, m, key, id) && Reads(from, key, to, m)
    requires Word(id) in ss && ss[Word(id)] == StreamOf(from, m)
    ensures var recs := NewRecords(a, SendMsg(from, a, m, key).0);
      && |recs| == |SourcePieces(ss[Word(id)])| + 1
      && forall k | 0 <= k < |recs| :: Carries(to, ss, recs[k].msg, Word(id), k)
  {
    hide SendMsg, Pieces, ChunkSizeOf, RecordAt, Carries, Reads, Word;
    StreamRecords(from, a, m, key, id);
    var recs, c := NewRecords(a, SendMsg(from, a, m, key).0), StreamOf(from, m).size;
    forall k | 0 <= k < |recs| ensures Carries(to, ss, recs[k].msg, Word(id), k) {
      SentRecordCarries(from, key, to, ss, m, id, c, k, recs[k], (a.ticks + 1) + k);
    }
  }

  lemma HeardIsTaken(cfg: Config, ss: Sources, sts: seq<State>, es: seq<NodeEvent>, start: nat, s: bytes, id: uint32,
                     k: nat)
    requires |sts| == |es| + 1 && Carries(cfg, ss, s, id, k) && HeardNew(cfg, sts, es, start, s)
    ensures TakenSince(cfg, sts, es, start, id, k)
  {
    hide Fresh, Carries, StreamIn, NumberIn;
    CarriesItsPlace(cfg, ss, s, id, k);
    CarriesStores(cfg, ss, s, id, k);
    var i :| start <= i < |es| && es[i] == Hear(s) && Fresh(cfg.crc, sts[i].window, s);
    assert Takes(cfg, sts[i], es[i], id, k);
  }

  lemma CarriesStores(cfg: Config, ss: Sources, s: bytes, id: uint32, k: nat)
    requires Carries(cfg, ss, s, id, k)
    ensures Stores(cfg, s)
  {}

  lemma RunJoined(cfg: Config, ss: Sources, sts: seq<State>, es: seq<NodeEvent>, sts': seq<State>, es': seq<NodeEvent>)
    requires NodeRun(cfg, ss, sts, es) && Steps(cfg, sts', es') && sts <= sts' && es <= es'
    requires PossibleSince(cfg, ss, sts', es', |es|)
    ensures NodeRun(cfg, ss, sts', es') && sts'[..|es| + 1] == sts && es'[..|es|] == es
  {
    hide NodeStep, Possible;
    forall i | 0 <= i < |es'| ensures Possible(cfg, ss, sts'[i], es'[i]) {
      if i < |es| { assert sts'[i] == sts[i] && es'[i] == es[i]; }
    }
  }

  lemma RunSteps(cfg: Config, ss: Sources, sts: seq<State>, es: seq<NodeEvent>)
    requires NodeRun(cfg, ss, sts, es)
    ensures Steps(cfg, sts, es) && |sts| == |es| + 1
  {}

  lemma LogParts(ss: Sources, a: seq<(uint32, Msg)>, b: seq<(uint32, Msg)>)
    requires HonestLog(ss, a + b)
    ensures HonestLog(ss, a) && HonestLog(ss, b)
  {
    forall i | 0 <= i < |a| ensures a[i].0 in ss && a[i].1 == Expected(ss[a[i].0]) {
      assert (a + b)[i] == a[i];
    }
    forall i | 0 <= i < |b| ensures b[i].0 in ss && b[i].1 == Expected(ss[b[i].0]) {
      assert (a + b)[|a| + i] == b[i];
    }
  }

  /**
   * From end to end: a message that SendMsg cuts into a stream, a receiver in any state that any run has brought it
   * to, and any run of polls after that - pushing and pulling, failing or not, with echoes coming back and both nodes
   * doing other things in between. When the cursor has passed the new records, the receiver has delivered the message
   * or its next pass does, once, or finds Out full; and all it delivers is original.
   */
  lemma SentThenDelivered(l: Pair, a: State, m: Msg, key: bytes, id: StreamId, ss: Sources, sts: seq<State>,
                          es: seq<NodeEvent>, ws: seq<World>, wes: seq<WorldEvent>, order: seq<uint32>)
    requires SendsStream(l.from, a, m, key, id) && Reads(l.from, key, l.to, m)
    requires var a' := SendMsg(l.from, a, m, key).0;
      StartsBehind(l, a, a', ws, wes) && CursorPassed(a, a', ws[|wes|])
    requires NodeRun(l.to, ss, sts, es) && sts[|es|] == ws[0].b && HonestWorld(l, ss, ws, wes)
    requires Word(id) in ss && ss[Word(id)] == StreamOf(l.from, m)
    requires forall id :: id in order <==> id in ws[|wes|].b.rx.streams
    ensures var pass := Pass(ws[|wes|].b.rx, order);
      && pass.Passed? && HonestLog(ss, WorldLog(ws, wes)) && HonestLog(ss, pass.done)
      && (|| Deliveries(WorldLog(ws, wes), Word(id)) > 0
          || Deliveries(pass.done, Word(id)) == 1
          || |pass.rx.out| >= OUT_BUFFER_SIZE)
  {
    hide SendMsg, SendsStream, Reads, NodeRun, StartsBehind, CursorPassed, HonestWorld, HonestLog, Deliveries, Pass;
    hide Word, WorldLog, NewRecords, Carries, SourcePieces, NodeLog, Steps, HeardNew, PossibleSince, TakenSince;
    hide StreamOf;
    var a' := SendMsg(l.from, a, m, key).0;
    StartsRun(l, a, a', ws, wes);
    RunSteps(l.to, ss, sts, es);
    RecordsCarry(l.from, a, m, key, id, l.to, ss);
    var recs := NewRecords(a, a');
    var sts', es' := RecordsHeard(l, ss, a, a', ws, wes, sts, es);
    StepsEnd(l.to, sts', es');
    RunJoined(l.to, ss, sts, es, sts', es');
    forall k | 0 <= k <= |SourcePieces(ss[Word(id)])| ensures TakenSince(l.to, sts', es', |es|, Word(id), k) {
      assert recs[k] in recs;
      HeardIsTaken(l.to, ss, sts', es', |es|, recs[k].msg, Word(id), k);
    }
    NodeDeliversOriginal(l.to, ss, sts', es', Word(id), 0);
    LogParts(ss, NodeLog(sts, es), WorldLog(ws, wes));
    DeliveriesOfConcat(NodeLog(sts, es), WorldLog(ws, wes), Word(id));
    PassHonest(ss, ws[|wes|].b.rx, order);
    if Deliveries(WorldLog(ws, wes), Word(id)) == 0 {
      AllTakenThenDelivered(l.to, ss, sts', es', |es|, Word(id), order);
    }
  }

  // The whole way of a message that needs no chunking

  lemma WholeRecord(from: Config, a: State, m: Msg, key: bytes)
    requires SendsWhole(from, a, m, key)
    ensures var recs := NewRecords(a, SendMsg(from, a, m, key).0);
      |recs| == 1 && RecordAt(from, key, m, recs[0], a.ticks)
  {
    hide SendMsg, ChunkSizeOf, RecordAt, Oversize;
    SendMsgQueues(from, a, m, key);
    var a' := SendMsg(from, a, m, key).0;
    assert RecordAt(from, key, [m][0], a'.outbox[|a.outbox| + 0], a.ticks + 0);
  }

  lemma RecordDeciphered(from: Config, key: bytes, to: Config, m: Msg, r: OutboxMsg, n: nat) returns (cipher: bytes)
    requires RecordAt(from, key, m, r, n) && Reads(from, key, to, m) && !m.chunked
    ensures Deciphered(to, m, cipher) && r.msg == Seal(Encrypted(m, cipher))
    ensures HashOf(to.crc, r.msg) == Some(to.crc(cipher[..NONCE_SIZE]))
  {
    hide Seal, Open, TriedKey;
    cipher := from.encrypt(key, m.content, n).value;
    OpenSeal(Encrypted(m, cipher));
  }

  lemma HeardIsOffered(to: Config, st: State, m: Msg, s: bytes, cipher: bytes)
    requires Deciphered(to, m, cipher) && s == Seal(Encrypted(m, cipher)) && Fresh(to.crc, st.window, s)
    requires HashOf(to.crc, s) == Some(to.crc(cipher[..NONCE_SIZE]))
    ensures Route(to, st, s).0.rx == st.rx.(out := Offered(st.rx.out, Received(m), Readings(to, m)))
  {
    hide Seal, HashOf, Route, Readings;
    WholeMessageOut(to, st, m, cipher);
  }

  lemma KeptAgain(cfg: Config, sts: seq<State>, es: seq<NodeEvent>, i: nat, j: nat)
    requires Steps(cfg, sts, es) && RecentBuffer.Sound(sts[0].window) && i < |es| && j < |es| && i != j
    requires es[i].Hear? && es[j] == es[i] && Fresh(cfg.crc, sts[i].window, es[i].s)
    requires sts[j + 1].rx != sts[j].rx
    ensures HashOf(cfg.crc, es[i].s).Some?
    ensures OthersHeard(cfg, sts, es, HashOf(cfg.crc, es[i].s).value, if i < j then i else j, if i < j then j else i)
            >= RecentBuffer.GUARANTEE
  {
    hide Route, HashOf, RecentBuffer.Sound, Kept;
    assert sts[j + 1] == NodeStep(cfg, sts[j], es[j]);
    RouteKeeps(cfg, sts[j], es[j].s);
    var first, second := if i < j then i else j, if i < j then j else i;
    CacheStaysSound(cfg, sts, es, first);
    HeardAgain(cfg, sts, es, first, second);
  }

  /**
   * From end to end for a message sent whole: when the cursor has passed it, there was a step at which the receiver
   * heard it under its new nonce and offered it to Out, as often as its router's checks read it; pushed again, it is
   * not offered again until 3072 other new messages came in.
   */
  lemma WholeSentThenReceived(l: Pair, a: State, m: Msg, key: bytes, ws: seq<World>, wes: seq<WorldEvent>)
    returns (sts: seq<State>, es: seq<NodeEvent>, i: nat)
    requires SendsWhole(l.from, a, m, key) && Reads(l.from, key, l.to, m)
    requires var a' := SendMsg(l.from, a, m, key).0;
      StartsBehind(l, a, a', ws, wes) && CursorPassed(a, a', ws[|wes|])
    requires RecentBuffer.Sound(ws[0].b.window)
    ensures Steps(l.to, sts, es) && sts[0] == ws[0].b && sts[|es|] == ws[|wes|].b && i < |es| && es[i].Hear?
    ensures HashOf(l.to.crc, es[i].s).Some?
    ensures NewRecords(a, SendMsg(l.from, a, m, key).0) != []
    ensures es[i].s == NewRecords(a, SendMsg(l.from, a, m, key).0)[0].msg
    ensures sts[i + 1].rx == sts[i].rx.(out := Offered(sts[i].rx.out, Received(m), Readings(l.to, m)))
    ensures forall j | 0 <= j < |es| && j != i && es[j] == es[i] && sts[j + 1].rx != sts[j].rx ::
              OthersHeard(l.to, sts, es, HashOf(l.to.crc, es[i].s).value, if i < j then i else j,
                          if i < j then j else i) >= RecentBuffer.GUARANTEE
  {
    hide SendMsg, Reads, StartsBehind, CursorPassed, NewRecords, HonestWorld, PossibleSince, RecordAt, Fresh, HashOf;
    hide Deciphered, Readings, Offered, NodeLog, WorldLog, Route, Oversize;
    var a' := SendMsg(l.from, a, m, key).0;
    StartsRun(l, a, a', ws, wes);
    WholeRecord(l.from, a, m, key);
    var r := NewRecords(a, a')[0];
    assert r in NewRecords(a, a');
    sts, es := RecordsHeard(l, map[], a, a', ws, wes, [ws[0].b], []);
    assert HeardNew(l.to, sts, es, 0, r.msg);
    i :| 0 <= i < |es| && es[i] == Hear(r.msg) && Fresh(l.to.crc, sts[i].window, r.msg);
    var cipher := RecordDeciphered(l.from, key, l.to, m, r, a.ticks);
    HeardIsOffered(l.to, sts[i], m, r.msg, cipher);
    forall j | 0 <= j < |es| && j != i && es[j] == es[i] && sts[j + 1].rx != sts[j].rx
      ensures OthersHeard(l.to, sts, es, HashOf(l.to.crc, es[i].s).value, if i < j then i else j,
                          if i < j then j else i) >= RecentBuffer.GUARANTEE
    {
      KeptAgain(l.to, sts, es, i, j);
    }
  }

  // When the cursor passes the new records

  lemma RecordsFit(from: Config, a: State, m: Msg, key: bytes, extra: nat, limit: int)
    requires Overhead(from, extra) && UsableLimits(from.limits) && SmallHeader(m, extra)
    requires |m.content| < TWO_32 && !m.chunked && (limit <= 0 || limit in from.limits)
    ensures var a' := SendMsg(from, a, m, key).0;
      && a'.outbox == a.outbox + NewRecords(a, a')
      && forall j | |a.outbox| <= j < |a'.outbox| :: Fits(a'.outbox[j], limit)
  {
    hide SendMsg, Overhead, UsableLimits, SmallHeader, FitsAll;
    SendMsgFits(from, a, m, key, extra);
    var a' := SendMsg(from, a, m, key).0;
    var n: nat :| QueuedFitting(from, a, a', n);
    forall j | |a.outbox| <= j < |a'.outbox| ensures Fits(a'.outbox[j], limit) {
      FitsOne(a'.outbox[j], from.limits, limit);
    }
  }

  lemma FitsOne(r: OutboxMsg, limits: seq<int64>, limit: int)
    requires FitsAll(r, limits) && (limit <= 0 || limit in limits)
    ensures Fits(r, limit)
  {}

  /**
   * With usable limits, and the queue passed before the sending, one done poll more than there are new records brings
   * the cursor past them all, whatever else happens: the condition of the two theorems above.
   */
  lemma DonePollsPassRecords(l: Pair, a: State, m: Msg, key: bytes, extra: nat, ws: seq<World>, wes: seq<WorldEvent>)
    requires Overhead(l.from, extra) && UsableLimits(l.from.limits) && SmallHeader(m, extra)
    requires |m.content| < TWO_32 && !m.chunked && (l.limit <= 0 || l.limit in l.from.limits)
    requires StartsBehind(l, a, SendMsg(l.from, a, m, key).0, ws, wes)
    requires ws[0].p.totalBytesTX >= 0 && forall r | r in a.outbox :: r.time <= ws[0].p.lastPollLocal
    requires DonePolls(l, ws, wes) > |NewRecords(a, SendMsg(l.from, a, m, key).0)|
    ensures CursorPassed(a, SendMsg(l.from, a, m, key).0, ws[|wes|])
  {
    hide SendMsg, Overhead, UsableLimits, SmallHeader, WorldRun, Increasing, DonePolls, NewRecords, OwnHashes, Fresh;
    var a' := SendMsg(l.from, a, m, key).0;
    StartsRun(l, a, a', ws, wes);
    RecordsFit(l.from, a, m, key, extra, l.limit);
    var recs, at := NewRecords(a, a'), |a.outbox|;
    assert forall j | 0 <= j < at :: a'.outbox[j] == a.outbox[j] && a.outbox[j] in a.outbox;
    DonePollsPass(l, ws, wes, at, |recs|);
    forall r | r in recs ensures r.time <= ws[|wes|].p.lastPollLocal {
      var k :| 0 <= k < |recs| && recs[k] == r;
      assert ws[|wes|].a.outbox[at + k] == a'.outbox[at + k] == r;
    }
  }

  /** Without reports: one more meeting than records, at which no call fails and both nodes can read what they get. */
  lemma WorkingMeetsPassRecords(l: Pair, a: State, m: Msg, key: bytes, extra: nat, ws: seq<World>, wes: seq<WorldEvent>)
    requires Overhead(l.from, extra) && UsableLimits(l.from.limits) && SmallHeader(m, extra)
    requires |m.content| < TWO_32 && !m.chunked && (l.limit <= 0 || l.limit in l.from.limits)
    requires StartsBehind(l, a, SendMsg(l.from, a, m, key).0, ws, wes)
    requires ws[0].p.totalBytesTX >= 0 && forall r | r in a.outbox :: r.time <= ws[0].p.lastPollLocal
    requires WorkingMeets(l, ws, wes) > |NewRecords(a, SendMsg(l.from, a, m, key).0)|
    ensures CursorPassed(a, SendMsg(l.from, a, m, key).0, ws[|wes|])
  {
    hide SendMsg, Overhead, UsableLimits, SmallHeader, StartsBehind, CursorPassed, NewRecords, WorkingMeets, DonePolls;
    StartsRun(l, a, SendMsg(l.from, a, m, key).0, ws, wes);
    WorkingAreDone(l, ws, wes);
    DonePollsPassRecords(l, a, m, key, extra, ws, wes);
  }
}
