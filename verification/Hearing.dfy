/** What a polled node is sure to have heard in any run of polls. */
module Hearing {
  import opened Bytes
  import opened OutboxSpec
  import opened Envelope
  import opened Reassembly
  import opened NodeSpec
  import opened RouteProofs
  import opened Delivery
  import opened NodeRuns
  import opened Meetings

  /** s reached the router under a new nonce at some step since start. */
  ghost predicate HeardNew(cfg: Config, sts: seq<State>, es: seq<NodeEvent>, start: nat, s: bytes)
    requires |sts| == |es| + 1
  {
    exists i :: start <= i < |es| && es[i] == Hear(s) && Fresh(cfg.crc, sts[i].window, s)
  }

  /** Each of recs was heard, or could still be heard under a new nonce. */
  ghost predicate NoneMissed(cfg: Config, sts: seq<State>, es: seq<NodeEvent>, start: nat, recs: seq<bytes>)
    requires |sts| == |es| + 1
  {
    forall k | 0 <= k < |recs| ::
      HeardNew(cfg, sts, es, start, recs[k]) || Fresh(cfg.crc, sts[|es|].window, recs[k])
  }

  /** s does not use up the hash of a record that was not heard yet, unless it is that record. */
  ghost predicate Harmless(cfg: Config, sts: seq<State>, es: seq<NodeEvent>, start: nat, recs: seq<bytes>, s: bytes)
    requires |sts| == |es| + 1
  {
    forall k | 0 <= k < |recs| :: HashOf(cfg.crc, s) == HashOf(cfg.crc, recs[k]) ==>
      s == recs[k] || HeardNew(cfg, sts, es, start, recs[k])
  }

  lemma HeardStays(cfg: Config, sts: seq<State>, es: seq<NodeEvent>, st: State, e: NodeEvent, start: nat, s: bytes)
    requires |sts| == |es| + 1 && HeardNew(cfg, sts, es, start, s)
    ensures HeardNew(cfg, sts + [st], es + [e], start, s)
  {
    hide Fresh;
    var i :| start <= i < |es| && es[i] == Hear(s) && Fresh(cfg.crc, sts[i].window, s);
    assert (es + [e])[i] == es[i] && (sts + [st])[i] == sts[i];
  }

  lemma StaysFresh(cfg: Config, st: State, s: bytes, r: bytes)
    requires Fresh(cfg.crc, st.window, r) && HashOf(cfg.crc, s) != HashOf(cfg.crc, r)
    ensures Fresh(cfg.crc, Route(cfg, st, s).0.window, r)
  {
    hide Open, Route, Panics, Errs;
    RouteOutcomeIff(cfg, st, s);
  }

  /** After one more step, what was heard is heard, no record is missed, and a record just routed is heard. */
  lemma StepHeard(cfg: Config, sts: seq<State>, es: seq<NodeEvent>, start: nat, recs: seq<bytes>, e: NodeEvent)
    requires Steps(cfg, sts, es) && start <= |es| && NoneMissed(cfg, sts, es, start, recs)
    requires e.Hear? ==> Harmless(cfg, sts, es, start, recs, e.s)
    ensures var st := NodeStep(cfg, sts[|es|], e);
      && Steps(cfg, sts + [st], es + [e]) && NoneMissed(cfg, sts + [st], es + [e], start, recs)
      && forall k | 0 <= k < |recs| :: HeardNew(cfg, sts, es, start, recs[k]) || e == Hear(recs[k]) ==>
           HeardNew(cfg, sts + [st], es + [e], start, recs[k])
  {
    hide Fresh, HashOf, Route, HeardNew, Pass;
    var st := NodeStep(cfg, sts[|es|], e);
    var sts', es' := sts + [st], es + [e];
    StepsOn(cfg, sts, es, e);
    forall k | 0 <= k < |recs|
      ensures HeardNew(cfg, sts', es', start, recs[k]) || Fresh(cfg.crc, sts'[|es'|].window, recs[k])
      ensures HeardNew(cfg, sts, es, start, recs[k]) || e == Hear(recs[k]) ==> HeardNew(cfg, sts', es', start, recs[k])
    {
      var r := recs[k];
      if HeardNew(cfg, sts, es, start, r) {
        HeardStays(cfg, sts, es, st, e, start, r);
      } else if e == Hear(r) {
        HeardNow(cfg, sts, es, st, start, r);
      } else if e.Hear? {
        StaysFresh(cfg, sts[|es|], e.s, r);
      }
    }
  }

  lemma StepsOn(cfg: Config, sts: seq<State>, es: seq<NodeEvent>, e: NodeEvent)
    requires Steps(cfg, sts, es)
    ensures Steps(cfg, sts + [NodeStep(cfg, sts[|es|], e)], es + [e])
  {
    hide NodeStep;
    var sts', es' := sts + [NodeStep(cfg, sts[|es|], e)], es + [e];
    forall i | 0 <= i < |es'| ensures sts'[i + 1] == NodeStep(cfg, sts'[i], es'[i]) {
      if i < |es| { assert sts'[i] == sts[i] && sts'[i + 1] == sts[i + 1] && es'[i] == es[i]; }
    }
  }

  lemma HeardNow(cfg: Config, sts: seq<State>, es: seq<NodeEvent>, st: State, start: nat, r: bytes)
    requires |sts| == |es| + 1 && start <= |es| && Fresh(cfg.crc, sts[|es|].window, r)
    ensures HeardNew(cfg, sts + [st], es + [Hear(r)], start, r)
  {
    hide Fresh;
    assert (es + [Hear(r)])[|es|] == Hear(r) && (sts + [st])[|es|] == sts[|es|];
  }

  /** recs are the payloads in the queue from position at on, each long enough to be routed. */
  ghost predicate RecordsIn(q: seq<OutboxMsg>, at: nat, recs: seq<bytes>) {
    && at + |recs| <= |q|
    && forall k | 0 <= k < |recs| :: q[at + k].msg == recs[k] && |recs[k]| >= 16
  }

  /** No message queued before a record has the record's hash. */
  ghost predicate OwnHashes(crc: bytes -> uint32, q: seq<OutboxMsg>, at: nat, recs: seq<bytes>) {
    forall j, k | 0 <= k < |recs| && 0 <= j < |q| && j < at + k :: HashOf(crc, q[j].msg) != HashOf(crc, recs[k])
  }

  /** The records at positions before c were heard. */
  ghost predicate HeardUpTo(cfg: Config, sts: seq<State>, es: seq<NodeEvent>, start: nat, at: nat, recs: seq<bytes>,
                            c: nat)
    requires |sts| == |es| + 1
  {
    forall k | 0 <= k < |recs| && at + k < c :: HeardNew(cfg, sts, es, start, recs[k])
  }

  predicate InQueue(q: seq<OutboxMsg>, since: int, s: bytes) {
    exists j :: 0 <= j < |q| && q[j].msg == s && q[j].time > since
  }

  /** The events behind start are messages heard from the part of the queue newer than since. */
  ghost predicate FromQueue(es: seq<NodeEvent>, start: nat, q: seq<OutboxMsg>, since: int) {
    forall i | start <= i < |es| :: es[i].Hear? && InQueue(q, since, es[i].s)
  }

  lemma HarmlessNext(cfg: Config, sts: seq<State>, es: seq<NodeEvent>, start: nat, q: seq<OutboxMsg>, at: nat,
                     recs: seq<bytes>, j: nat)
    requires |sts| == |es| + 1 && j < |q| && RecordsIn(q, at, recs) && OwnHashes(cfg.crc, q, at, recs)
    requires HeardUpTo(cfg, sts, es, start, at, recs, j)
    ensures Harmless(cfg, sts, es, start, recs, q[j].msg)
  {
    hide HashOf, HeardNew;
    forall k | 0 <= k < |recs| && HashOf(cfg.crc, q[j].msg) == HashOf(cfg.crc, recs[k])
      ensures q[j].msg == recs[k] || HeardNew(cfg, sts, es, start, recs[k])
    {
      if at + k == j { assert q[at + k].msg == recs[k]; }
    }
  }

  lemma LogOfHear(sts: seq<State>, es: seq<NodeEvent>, st: State, s: bytes)
    requires |sts| == |es| + 1
    ensures NodeLog(sts + [st], es + [Hear(s)]) == NodeLog(sts, es)
  {
    var sts', es' := sts + [st], es + [Hear(s)];
    assert sts'[..|es'|] == sts && es'[..|es|] == es;
    assert NodeLog(sts, es) + [] == NodeLog(sts, es);
  }

  lemma RoutableNext(q: seq<OutboxMsg>, i: nat, e: nat)
    requires i < e <= |q|
    ensures Routable(Payloads(q[i..e]))
            == if |q[e - 1].msg| < 16 then Routable(Payloads(q[i..e - 1]))
               else Routable(Payloads(q[i..e - 1])) + [q[e - 1].msg]
  {
    assert Payloads(q[i..e]) == Payloads(q[i..e - 1]) + [q[e - 1].msg];
    RoutableOfConcat(Payloads(q[i..e - 1]), [q[e - 1].msg]);
    assert Routable([q[e - 1].msg]) == if |q[e - 1].msg| < 16 then [] else [q[e - 1].msg] by {
      assert [q[e - 1].msg][1..] == [];
    }
  }

  lemma Present(q: seq<OutboxMsg>, since: int, j: nat)
    requires j < |q| && q[j].time > since
    ensures InQueue(q, since, q[j].msg)
  {}

  lemma StepsEnd(cfg: Config, sts: seq<State>, es: seq<NodeEvent>)
    requires Steps(cfg, sts, es)
    ensures |sts| == |es| + 1
  {}

  lemma RouteEachSnoc(cfg: Config, st: State, msgs: seq<bytes>, s: bytes)
    ensures RouteEach(cfg, st, msgs + [s]) == Route(cfg, RouteEach(cfg, st, msgs), s).0
  {
    hide Route;
    assert (msgs + [s])[..|msgs|] == msgs;
  }

  lemma NextHeard(cfg: Config, sts: seq<State>, es: seq<NodeEvent>, sts': seq<State>, es': seq<NodeEvent>, start: nat,
                  q: seq<OutboxMsg>, at: nat, recs: seq<bytes>, j: nat)
    requires |sts| == |es| + 1 && |sts'| == |es'| + 1 && j < |q| && RecordsIn(q, at, recs)
    requires HeardUpTo(cfg, sts, es, start, at, recs, j)
    requires forall k | 0 <= k < |recs| ::
               HeardNew(cfg, sts, es, start, recs[k]) || q[j].msg == recs[k] ==>
                 HeardNew(cfg, sts', es', start, recs[k])
    ensures HeardUpTo(cfg, sts', es', start, at, recs, j + 1)
  {
    hide HeardNew;
    forall k | 0 <= k < |recs| && at + k < j + 1 ensures HeardNew(cfg, sts', es', start, recs[k]) {
      if at + k == j { assert q[at + k].msg == recs[k]; }
    }
  }

  /** One more message of a page: routed if it is long enough. */
  lemma HearNext(cfg: Config, sts: seq<State>, es: seq<NodeEvent>, start: nat, q: seq<OutboxMsg>, at: nat,
                 recs: seq<bytes>, j: nat, since: int)
    returns (sts': seq<State>, es': seq<NodeEvent>)
    requires Steps(cfg, sts, es) && start <= |es| && NoneMissed(cfg, sts, es, start, recs)
    requires RecordsIn(q, at, recs) && OwnHashes(cfg.crc, q, at, recs)
    requires j < |q| && HeardUpTo(cfg, sts, es, start, at, recs, j) && since < q[j].time
    ensures Steps(cfg, sts', es') && sts <= sts' && es <= es' && NoneMissed(cfg, sts', es', start, recs)
    ensures sts'[|es'|] == if |q[j].msg| < 16 then sts[|es|] else Route(cfg, sts[|es|], q[j].msg).0
    ensures HeardUpTo(cfg, sts', es', start, at, recs, j + 1)
    ensures forall k | 0 <= k < |recs| && HeardNew(cfg, sts, es, start, recs[k]) ::
              HeardNew(cfg, sts', es', start, recs[k])
    ensures FromQueue(es', |es|, q, since) && NodeLog(sts', es') == NodeLog(sts, es)
  {
    hide Steps, NoneMissed, OwnHashes, HeardNew, Route, NodeLog, InQueue, HeardUpTo;
    StepsEnd(cfg, sts, es);
    if |q[j].msg| < 16 {
      sts', es' := sts, es;
      NextHeard(cfg, sts, es, sts, es, start, q, at, recs, j);
    } else {
      var s := q[j].msg;
      var st := Route(cfg, sts[|es|], s).0;
      sts', es' := sts + [st], es + [Hear(s)];
      HarmlessNext(cfg, sts, es, start, q, at, recs, j);
      StepHeard(cfg, sts, es, start, recs, Hear(s));
      LogOfHear(sts, es, st, s);
      Present(q, since, j);
      NextHeard(cfg, sts, es, sts', es', start, q, at, recs, j);
    }
  }

  /** Routing a page behind positions that were heard makes its records heard. */
  lemma {:induction false} HearPage(cfg: Config, sts: seq<State>, es: seq<NodeEvent>, start: nat, q: seq<OutboxMsg>,
                                    at: nat, recs: seq<bytes>, i: nat, e: nat, since: int)
    returns (sts': seq<State>, es': seq<NodeEvent>)
    requires Steps(cfg, sts, es) && start <= |es| && NoneMissed(cfg, sts, es, start, recs)
    requires RecordsIn(q, at, recs) && OwnHashes(cfg.crc, q, at, recs)
    requires i <= e <= |q| && HeardUpTo(cfg, sts, es, start, at, recs, i)
    requires forall j | i <= j < e :: since < q[j].time
    ensures Steps(cfg, sts', es') && sts <= sts' && es <= es' && NoneMissed(cfg, sts', es', start, recs)
    ensures sts'[|es'|] == RouteEach(cfg, sts[|es|], Routable(Payloads(q[i..e])))
    ensures HeardUpTo(cfg, sts', es', start, at, recs, e)
    ensures forall k | 0 <= k < |recs| && HeardNew(cfg, sts, es, start, recs[k]) ::
              HeardNew(cfg, sts', es', start, recs[k])
    ensures FromQueue(es', |es|, q, since) && NodeLog(sts', es') == NodeLog(sts, es)
    decreases e - i
  {
    hide Steps, NoneMissed, OwnHashes, HeardNew, Route, NodeLog, InQueue, HeardUpTo, RecordsIn, Routable;
    StepsEnd(cfg, sts, es);
    if i == e {
      sts', es' := sts, es;
      assert Payloads(q[i..e]) == [];
      NoneRoutable();
    } else {
      var sts1, es1 := HearPage(cfg, sts, es, start, q, at, recs, i, e - 1, since);
      StepsEnd(cfg, sts1, es1);
      sts', es' := HearNext(cfg, sts1, es1, start, q, at, recs, e - 1, since);
      StepsEnd(cfg, sts', es');
      RoutableNext(q, i, e);
      RouteEachSnoc(cfg, sts[|es|], Routable(Payloads(q[i..e - 1])), q[e - 1].msg);
      assert forall x | |es| <= x < |es1| :: es'[x] == es1[x];
    }
  }

  lemma NoneRoutable()
    ensures Routable([]) == []
  {}

  // The whole run

  /** Where the other node's run stands: c messages of the queue went over or were passed already. */
  ghost predicate Tracked(l: Pair, w: World, sts: seq<State>, es: seq<NodeEvent>, start: nat, at: nat,
                          recs: seq<bytes>, c: nat) {
    && Steps(l.to, sts, es) && start <= |es| && sts[|es|] == w.b
    && RecordsIn(w.a.outbox, at, recs) && OwnHashes(l.to.crc, w.a.outbox, at, recs)
    && NoneMissed(l.to, sts, es, start, recs) && HeardUpTo(l.to, sts, es, start, at, recs, c)
    && PassedUpTo(w, c)
  }

  /** The cursor has not passed more than the first c messages, nor all time there is. */
  ghost predicate PassedUpTo(w: World, c: nat) {
    var q := w.a.outbox;
    && q != [] && w.p.lastPollLocal <= q[|q| - 1].time
    && forall j | 0 <= j < |q| && q[j].time <= w.p.lastPollLocal :: j < c
  }

  lemma PassedInLonger(w: World, w': World, c: nat)
    requires PassedUpTo(w, c) && Increasing(w'.a.outbox) && w.a.outbox <= w'.a.outbox
    requires w'.p.lastPollLocal == w.p.lastPollLocal
    ensures PassedUpTo(w', c)
  {
    var q, q' := w.a.outbox, w'.a.outbox;
    assert q'[|q| - 1] == q[|q| - 1];
    forall j | 0 <= j < |q'| && q'[j].time <= w'.p.lastPollLocal ensures j < c {
      if j < |q| { assert q'[j] == q[j]; }
    }
  }

  lemma RecordsInLonger(crc: bytes -> uint32, q: seq<OutboxMsg>, q': seq<OutboxMsg>, at: nat, recs: seq<bytes>)
    requires RecordsIn(q, at, recs) && OwnHashes(crc, q, at, recs) && q <= q'
    ensures RecordsIn(q', at, recs) && OwnHashes(crc, q', at, recs)
  {
    hide HashOf;
    assert forall j | 0 <= j < |q| :: q'[j] == q[j];
  }

  lemma MeetTracked(l: Pair, w: World, fault: Fault, sts: seq<State>, es: seq<NodeEvent>, start: nat, at: nat,
                    recs: seq<bytes>, c: nat)
    returns (sts': seq<State>, es': seq<NodeEvent>, c': nat)
    requires Tracked(l, w, sts, es, start, at, recs, c)
    requires WorldPossible(l, w, Meet(fault)) && w.p.routingPub in {None, Some(l.rpub)}
    requires CipherPair(l.from, l.rpub, l.to, l.to.routingKey)
    requires Increasing(Met(l, w, fault).a.outbox)
    ensures Tracked(l, Met(l, w, fault), sts', es', start, at, recs, c') && sts <= sts' && es <= es'
    ensures FromQueue(es', |es|, w.a.outbox, w.p.lastPollLocal) && NodeLog(sts', es') == NodeLog(sts, es)
    ensures w.p.lastPollLocal <= Met(l, w, fault).p.lastPollLocal
    ensures Met(l, w, fault).p.routingPub in {None, Some(l.rpub)}
  {
    hide Met, WorldPossible, CipherPair, PageOf, Increasing, RouteEach, Routable, PageTime, NodeLog, OwnHashes;
    hide RecordsIn, NoneMissed, HeardUpTo, Steps, PassedUpTo, HeardNew;
    var w', q := Met(l, w, fault), w.a.outbox;
    QueueGrows(l, w, Meet(fault));
    MeetEffect(l, w, fault);
    IncreasingPrefix(q, w'.a.outbox);
    RecordsInLonger(l.to.crc, q, w'.a.outbox, at, recs);
    StepsEnd(l.to, sts, es);
    if w'.b == w.b && w'.p.lastPollLocal == w.p.lastPollLocal {
      sts', es', c' := sts, es, c;
      PassedInLonger(w, w', c);
    } else {
      var i, e := PageStretch(q, w.p.lastPollLocal, l.limit);
      StretchFollows(l, w, sts, es, start, at, recs, c, i);
      sts', es' := HearPage(l.to, sts, es, start, q, at, recs, i, e, w.p.lastPollLocal);
      StepsEnd(l.to, sts', es');
      c' := if c < e then e else c;
      HeardOfBoth(l.to, sts, es, sts', es', start, at, recs, c, e);
      CursorFollows(w, w', c, i, e);
    }
  }

  lemma StretchFollows(l: Pair, w: World, sts: seq<State>, es: seq<NodeEvent>, start: nat, at: nat,
                       recs: seq<bytes>, c: nat, i: nat)
    requires |sts| == |es| + 1 && HeardUpTo(l.to, sts, es, start, at, recs, c) && PassedUpTo(w, c)
    requires i <= |w.a.outbox| && forall j | 0 <= j < i :: w.a.outbox[j].time <= w.p.lastPollLocal
    ensures HeardUpTo(l.to, sts, es, start, at, recs, i)
  {
    hide HeardNew;
    assert i <= c by {
      if i > 0 { assert w.a.outbox[i - 1].time <= w.p.lastPollLocal; }
    }
  }

  lemma HeardOfBoth(cfg: Config, sts: seq<State>, es: seq<NodeEvent>, sts': seq<State>, es': seq<NodeEvent>, start: nat,
                    at: nat, recs: seq<bytes>, c: nat, e: nat)
    requires |sts| == |es| + 1 && |sts'| == |es'| + 1
    requires HeardUpTo(cfg, sts, es, start, at, recs, c) && HeardUpTo(cfg, sts', es', start, at, recs, e)
    requires forall k | 0 <= k < |recs| && HeardNew(cfg, sts, es, start, recs[k]) ::
               HeardNew(cfg, sts', es', start, recs[k])
    ensures HeardUpTo(cfg, sts', es', start, at, recs, if c < e then e else c)
  {
    hide HeardNew;
  }

  lemma CursorFollows(w: World, w': World, c: nat, i: nat, e: nat)
    requires PassedUpTo(w, c) && Increasing(w'.a.outbox) && w.a.outbox <= w'.a.outbox
    requires i < e <= |w.a.outbox|
    requires w'.p.lastPollLocal in {w.p.lastPollLocal, w.a.outbox[e - 1].time}
    ensures PassedUpTo(w', if c < e then e else c)
  {
    var q, q' := w.a.outbox, w'.a.outbox;
    assert q'[|q| - 1] == q[|q| - 1] && q'[e - 1] == q[e - 1];
    forall j | 0 <= j < |q'| && q'[j].time <= w'.p.lastPollLocal ensures j < if c < e then e else c {
      if j < |q| { assert q'[j] == q[j]; }
    }
  }

  lemma SenderTracked(l: Pair, w: World, a: State, sts: seq<State>, es: seq<NodeEvent>, start: nat, at: nat,
                      recs: seq<bytes>, c: nat)
    requires Tracked(l, w, sts, es, start, at, recs, c) && w.a.outbox <= a.outbox && Increasing(a.outbox)
    ensures Tracked(l, w.(a := a), sts, es, start, at, recs, c)
  {
    hide Increasing, OwnHashes, RecordsIn, NoneMissed, HeardUpTo, Steps, PassedUpTo;
    RecordsInLonger(l.to.crc, w.a.outbox, a.outbox, at, recs);
    PassedInLonger(w, w.(a := a), c);
  }

  /** Messages that reach the other node from elsewhere have other hashes than the records, or are the records. */
  ghost predicate NotTheirHash(crc: bytes -> uint32, recs: seq<bytes>, e: NodeEvent) {
    e.Hear? ==> forall k | 0 <= k < |recs| && HashOf(crc, e.s) == HashOf(crc, recs[k]) :: e.s == recs[k]
  }

  lemma ReceiverTracked(l: Pair, w: World, e: NodeEvent, sts: seq<State>, es: seq<NodeEvent>, start: nat, at: nat,
                        recs: seq<bytes>, c: nat)
    requires Tracked(l, w, sts, es, start, at, recs, c) && NotTheirHash(l.to.crc, recs, e)
    ensures var b := NodeStep(l.to, w.b, e);
      && Tracked(l, w.(b := b), sts + [b], es + [e], start, at, recs, c)
      && NodeLog(sts + [b], es + [e]) == NodeLog(sts, es) + StepLog(w.b, e)
  {
    hide OwnHashes, RecordsIn, NoneMissed, Steps, HeardNew, NodeStep, HashOf, StepLog;
    StepsEnd(l.to, sts, es);
    StepHeard(l.to, sts, es, start, recs, e);
    var b := NodeStep(l.to, w.b, e);
    StepsEnd(l.to, sts + [b], es + [e]);
    assert (sts + [b])[..|es| + 1] == sts && (es + [e])[..|es|] == es;
  }

  ghost predicate PossibleSince(cfg: Config, ss: Sources, sts: seq<State>, es: seq<NodeEvent>, start: nat)
    requires |sts| == |es| + 1
  {
    forall i | start <= i < |es| :: Possible(cfg, ss, sts[i], es[i])
  }

  lemma TrackedEnds(l: Pair, w: World, sts: seq<State>, es: seq<NodeEvent>, start: nat, at: nat, recs: seq<bytes>,
                    c: nat)
    requires Tracked(l, w, sts, es, start, at, recs, c)
    ensures Steps(l.to, sts, es) && |sts| == |es| + 1 && start <= |es| && sts[|es|] == w.b
  {}

  lemma HeardIsPossible(l: Pair, ss: Sources, q: seq<OutboxMsg>, since: int, sts: seq<State>, es: seq<NodeEvent>,
                        start: nat)
    requires |sts| == |es| + 1 && FromQueue(es, start, q, since)
    requires forall j | 0 <= j < |q| && q[j].time > since :: Tame(l.to, ss, q[j].msg)
    ensures PossibleSince(l.to, ss, sts, es, start)
  {
    hide Tame;
    forall i | start <= i < |es| ensures Possible(l.to, ss, sts[i], es[i]) {
      assert InQueue(q, since, es[i].s);
    }
  }

  lemma PossibleTogether(cfg: Config, ss: Sources, sts: seq<State>, es: seq<NodeEvent>, sts': seq<State>,
                         es': seq<NodeEvent>, start: nat)
    requires |sts| == |es| + 1 && |sts'| == |es'| + 1 && sts <= sts' && es <= es' && start <= |es|
    requires PossibleSince(cfg, ss, sts, es, start) && PossibleSince(cfg, ss, sts', es', |es|)
    ensures PossibleSince(cfg, ss, sts', es', start)
  {
    hide Possible;
    forall i | start <= i < |es'| ensures Possible(cfg, ss, sts'[i], es'[i]) {
      if i < |es| { assert sts'[i] == sts[i] && es'[i] == es[i]; }
    }
  }

  /** An honest world's last step: only possible events are added to the other node's run. */
  lemma StepTracked(l: Pair, ss: Sources, ws: seq<World>, wes: seq<WorldEvent>, sts: seq<State>, es: seq<NodeEvent>,
                    start: nat, at: nat, recs: seq<bytes>, c: nat)
    returns (sts': seq<State>, es': seq<NodeEvent>, c': nat)
    requires WorldRun(l, ws, wes) && wes != [] && Increasing(ws[|wes|].a.outbox)
    requires var w := ws[|wes| - 1];
      && Tracked(l, w, sts, es, start, at, recs, c) && w.p.routingPub in {None, Some(l.rpub)}
      && ws[0].p.lastPollLocal <= w.p.lastPollLocal
    requires wes[|wes| - 1].Receiver? ==> NotTheirHash(l.to.crc, recs, wes[|wes| - 1].e)
    ensures Tracked(l, ws[|wes|], sts', es', start, at, recs, c') && sts <= sts' && es <= es'
    ensures var w, e := ws[|wes| - 1], wes[|wes| - 1];
      NodeLog(sts', es') == NodeLog(sts, es) + if e.Receiver? then StepLog(w.b, e.e) else []
    ensures HonestWorld(l, ss, ws, wes) && PossibleSince(l.to, ss, sts, es, start) ==>
              PossibleSince(l.to, ss, sts', es', start)
    ensures ws[|wes|].p.routingPub in {None, Some(l.rpub)}
    ensures ws[|wes| - 1].p.lastPollLocal <= ws[|wes|].p.lastPollLocal
  {
    hide Tracked, Met, WorldPossible, Increasing, NodeLog, StepLog, Possible, CipherPair, Tame, NotTheirHash, NodeStep;
    hide PossibleSince, FromQueue;
    var w, e := ws[|wes| - 1], wes[|wes| - 1];
    LastWorldStep(l, ws, wes);
    TrackedEnds(l, w, sts, es, start, at, recs, c);
    assert NodeLog(sts, es) + [] == NodeLog(sts, es);
    match e {
      case Meet(fault) =>
        sts', es', c' := MeetTracked(l, w, fault, sts, es, start, at, recs, c);
        TrackedEnds(l, ws[|wes|], sts', es', start, at, recs, c');
        if HonestWorld(l, ss, ws, wes) && PossibleSince(l.to, ss, sts, es, start) {
          TameInQueue(l, ss, ws, wes);
          HeardIsPossible(l, ss, w.a.outbox, w.p.lastPollLocal, sts', es', |es|);
          PossibleTogether(l.to, ss, sts, es, sts', es', start);
        }
      case Sender(a) =>
        sts', es', c' := sts, es, c;
        SenderTracked(l, w, a, sts, es, start, at, recs, c);
      case Receiver(event) =>
        ReceiverTracked(l, w, event, sts, es, start, at, recs, c);
        sts', es', c' := sts + [NodeStep(l.to, w.b, event)], es + [event], c;
        if HonestWorld(l, ss, ws, wes) && PossibleSince(l.to, ss, sts, es, start) {
          OnePossible(l.to, ss, sts', es');
          PossibleTogether(l.to, ss, sts, es, sts', es', start);
        }
    }
  }

  lemma OnePossible(cfg: Config, ss: Sources, sts: seq<State>, es: seq<NodeEvent>)
    requires |sts| == |es| + 1 && es != [] && Possible(cfg, ss, sts[|es| - 1], es[|es| - 1])
    ensures PossibleSince(cfg, ss, sts, es, |es| - 1)
  {
    hide Possible;
  }

  lemma TameInQueue(l: Pair, ss: Sources, ws: seq<World>, wes: seq<WorldEvent>)
    requires |ws| == |wes| + 1 && wes != [] && HonestWorld(l, ss, ws, wes)
    requires var w := ws[|wes| - 1];
      w.a.outbox <= ws[|wes|].a.outbox && ws[0].p.lastPollLocal <= w.p.lastPollLocal
    ensures var w := ws[|wes| - 1];
      forall j | 0 <= j < |w.a.outbox| && w.a.outbox[j].time > w.p.lastPollLocal :: Tame(l.to, ss, w.a.outbox[j].msg)
    ensures HonestWorld(l, ss, ws[..|wes|], wes[..|wes| - 1])
  {
    hide Tame, Possible;
    var q, q' := ws[|wes| - 1].a.outbox, ws[|wes|].a.outbox;
    assert forall j | 0 <= j < |q| :: q'[j] == q[j];
  }

  /**
   * In any run of polls, failing or not, with both nodes doing other things in between: from each step on, every new
   * record at or below the cursor was routed by the other node under a new nonce.
   */
  lemma {:induction false} WorldHeard(l: Pair, ss: Sources, ws: seq<World>, wes: seq<WorldEvent>, sts: seq<State>,
                                      es: seq<NodeEvent>, at: nat, recs: seq<bytes>)
    returns (sts': seq<State>, es': seq<NodeEvent>, c: nat)
    requires WorldRun(l, ws, wes) && Increasing(ws[|wes|].a.outbox)
    requires Tracked(l, ws[0], sts, es, |es|, at, recs, at)
    requires forall i | 0 <= i < |wes| && wes[i].Receiver? :: NotTheirHash(l.to.crc, recs, wes[i].e)
    ensures Tracked(l, ws[|wes|], sts', es', |es|, at, recs, c) && sts <= sts' && es <= es'
    ensures NodeLog(sts', es') == NodeLog(sts, es) + WorldLog(ws, wes)
    ensures HonestWorld(l, ss, ws, wes) ==> PossibleSince(l.to, ss, sts', es', |es|)
    ensures ws[|wes|].p.routingPub in {None, Some(l.rpub)} && ws[0].p.lastPollLocal <= ws[|wes|].p.lastPollLocal
    decreases |wes|
  {
    hide Tracked, WorldStep, WorldPossible, Increasing, NodeLog, StepLog, Possible, CipherPair, Tame, NotTheirHash;
    TrackedEnds(l, ws[0], sts, es, |es|, at, recs, at);
    if wes == [] {
      sts', es', c := sts, es, at;
      assert NodeLog(sts, es) + [] == NodeLog(sts, es);
    } else {
      var n := |wes| - 1;
      var w, w' := ws[n], ws[n + 1];
      LastWorldStep(l, ws, wes);
      IncreasingPrefix(w.a.outbox, w'.a.outbox);
      var sts1, es1, c1 := WorldHeard(l, ss, ws[..n + 1], wes[..n], sts, es, at, recs);
      sts', es', c := StepTracked(l, ss, ws, wes, sts1, es1, |es|, at, recs, c1);
      if HonestWorld(l, ss, ws, wes) { TameInQueue(l, ss, ws, wes); }
      var last := if wes[n].Receiver? then StepLog(w.b, wes[n].e) else [];
      assert NodeLog(sts, es) + WorldLog(ws[..n + 1], wes[..n]) + last == NodeLog(sts, es) + WorldLog(ws, wes);
    }
  }
}
