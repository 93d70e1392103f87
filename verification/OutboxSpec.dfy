/** What the outbox operations compute, on the sequence of queued messages, and what that means. */
module OutboxSpec {
  import opened Bytes

  datatype OutboxMsg = OutboxMsg(channel: bytes, msg: bytes, time: int)

  // Flush

  predicate Old(m: OutboxMsg, cutoff: int) { m.time < cutoff }

  /** One pass of the deletion loop: deleting an element moves its successor under the index just visited. */
  function FlushPass(q: seq<OutboxMsg>, cutoff: int): seq<OutboxMsg> {
    if q == [] then []
    else if !Old(q[0], cutoff) then [q[0]] + FlushPass(q[1..], cutoff)
    else if |q| == 1 then []
    else [q[1]] + FlushPass(q[2..], cutoff)
  }

  /** The loop, visiting slots behind the shrunk queue, finds the old last message there and empties the queue. */
  predicate Wiped(q: seq<OutboxMsg>, cutoff: int) {
    q != [] && Old(q[|q| - 1], cutoff) && exists i :: 0 <= i < |q| - 1 && Old(q[i], cutoff)
  }

  function Flushed(q: seq<OutboxMsg>, cutoff: int): seq<OutboxMsg> {
    if Wiped(q, cutoff) then [] else FlushPass(q, cutoff)
  }

  /** The messages Flush is meant to keep, in order. */
  function Young(q: seq<OutboxMsg>, cutoff: int): seq<OutboxMsg> {
    if q == [] then []
    else if Old(q[0], cutoff) then Young(q[1..], cutoff)
    else [q[0]] + Young(q[1..], cutoff)
  }

  lemma {:induction false} YoungOfConcat(a: seq<OutboxMsg>, b: seq<OutboxMsg>, cutoff: int)
    ensures Young(a + b, cutoff) == Young(a, cutoff) + Young(b, cutoff)
  {
    if a == [] {
      assert a + b == b;
    } else {
      assert (a + b)[1..] == a[1..] + b;
      YoungOfConcat(a[1..], b, cutoff);
    }
  }

  /** The messages at or above the cutoff, in order. */
  lemma YoungParts(x: seq<OutboxMsg>, m: OutboxMsg, y: seq<OutboxMsg>, cutoff: int)
    ensures Young(x + [m] + y, cutoff)
            == Young(x, cutoff) + (if m.time >= cutoff then [m] else []) + Young(y, cutoff)
  {
    assert [m][1..] == [];
    assert Young([m], cutoff) == if m.time >= cutoff then [m] else [];
    YoungOfConcat(x, [m], cutoff);
    YoungOfConcat(x + [m], y, cutoff);
  }

  lemma {:induction false} FlushPassKeepsYoung(q: seq<OutboxMsg>, cutoff: int)
    ensures Young(FlushPass(q, cutoff), cutoff) == Young(q, cutoff)
  {
    if q == [] {
    } else if !Old(q[0], cutoff) {
      FlushPassKeepsYoung(q[1..], cutoff);
      assert FlushPass(q, cutoff)[1..] == FlushPass(q[1..], cutoff);
    } else if |q| > 1 {
      FlushPassKeepsYoung(q[2..], cutoff);
      assert FlushPass(q, cutoff)[1..] == FlushPass(q[2..], cutoff);
      assert q[1..][1..] == q[2..];
    }
  }

  /**
   * No message at or above the cutoff is lost, and those messages keep their order, exactly unless the last
   * message is old, an earlier one is old too, and there is something to lose.
   */
  lemma FlushKeepsYoungIff(q: seq<OutboxMsg>, cutoff: int)
    ensures Young(Flushed(q, cutoff), cutoff) == Young(q, cutoff)
            <==> !(Wiped(q, cutoff) && exists m :: m in q && !Old(m, cutoff))
  {
    FlushPassKeepsYoung(q, cutoff);
    YoungEmptyIff(q, cutoff);
  }

  lemma {:induction false} YoungEmptyIff(q: seq<OutboxMsg>, cutoff: int)
    ensures Young(q, cutoff) == [] <==> forall m | m in q :: Old(m, cutoff)
  {
    if q == [] {
    } else {
      YoungEmptyIff(q[1..], cutoff);
      assert forall m :: m in q <==> m == q[0] || m in q[1..];
    }
  }

  /** On a queue out of time order, one flush loses a message younger than the cutoff. */
  lemma FlushLosesYoungMessage()
    ensures var q := [OutboxMsg([], [], 1), OutboxMsg([], [], 9), OutboxMsg([], [], 2)];
      q[1] in Young(q, 5) && Flushed(q, 5) == []
  {
    var q := [OutboxMsg([], [], 1), OutboxMsg([], [], 9), OutboxMsg([], [], 2)];
    assert Old(q[0], 5) && Wiped(q, 5);
    assert q[1..][0] == q[1];
  }

  /** Every second element, starting with the second. */
  function OddOnes<T>(s: seq<T>): (r: seq<T>)
    ensures |r| == |s| / 2
  {
    if |s| < 2 then [] else [s[1]] + OddOnes(s[2..])
  }

  lemma {:induction false} OddOnesAt<T>(s: seq<T>, i: nat)
    requires i < |s| / 2
    ensures OddOnes(s)[i] == s[2 * i + 1]
  {
    if i == 0 {
    } else {
      OddOnesAt(s[2..], i - 1);
    }
  }

  ghost predicate Cut(stale: seq<OutboxMsg>, young: seq<OutboxMsg>, cutoff: int) {
    (forall m | m in stale :: Old(m, cutoff)) && forall m | m in young :: !Old(m, cutoff)
  }

  lemma {:induction false} FlushPassYoung(young: seq<OutboxMsg>, cutoff: int)
    requires forall m | m in young :: !Old(m, cutoff)
    ensures FlushPass(young, cutoff) == young
  {
    if young == [] {
    } else {
      assert young[0] in young;
      FlushPassYoung(young[1..], cutoff);
    }
  }

  lemma {:induction false} FlushPassCut(stale: seq<OutboxMsg>, young: seq<OutboxMsg>, cutoff: int)
    requires Cut(stale, young, cutoff)
    ensures FlushPass(stale + young, cutoff) == OddOnes(stale) + young
  {
    var q := stale + young;
    if stale == [] {
      assert q == young;
      FlushPassYoung(young, cutoff);
    } else {
      assert q[0] == stale[0] && stale[0] in stale;
      if |stale| >= 2 {
        assert q[2..] == stale[2..] + young;
        FlushPassCut(stale[2..], young, cutoff);
      } else if young != [] {
        assert q[1] == young[0] && q[2..] == young[1..];
        FlushPassYoung(young[1..], cutoff);
      }
    }
  }

  /** One flush of a time-ordered queue: empty if all are old, else every second old message stays. */
  lemma FlushOrdered(stale: seq<OutboxMsg>, young: seq<OutboxMsg>, cutoff: int)
    requires Cut(stale, young, cutoff)
    ensures Flushed(stale + young, cutoff) == if young == [] then [] else OddOnes(stale) + young
  {
    var q := stale + young;
    FlushPassCut(stale, young, cutoff);
    if young == [] {
      assert q == stale;
      assert forall i :: 0 <= i < |q| ==> q[i] in stale;
      if |q| >= 2 { assert Old(q[0], cutoff) && Wiped(q, cutoff); }
    } else {
      assert q[|q| - 1] == young[|young| - 1];
    }
  }

  function FlushTimes(q: seq<OutboxMsg>, cutoff: int, k: nat): seq<OutboxMsg>
    decreases k
  {
    if k == 0 then q else FlushTimes(Flushed(q, cutoff), cutoff, k - 1)
  }

  function Pow2(k: nat): (p: nat)
    ensures p >= 1
  {
    if k == 0 then 1 else 2 * Pow2(k - 1)
  }

  /** What is left of the old messages after k flushes. */
  function Survivors<T>(s: seq<T>, k: nat): seq<T>
    decreases k
  {
    if k == 0 then s else Survivors(OddOnes(s), k - 1)
  }

  /** The count is |s| / 2^k, rounded down. */
  lemma {:induction false} SurvivorsCount<T>(s: seq<T>, k: nat)
    ensures Pow2(k) * |Survivors(s, k)| <= |s| < Pow2(k) * (|Survivors(s, k)| + 1)
    decreases k
  {
    if k == 0 {
    } else {
      SurvivorsCount(OddOnes(s), k - 1);
      Doubling(Pow2(k - 1), |Survivors(s, k)|, |s|);
    }
  }

  lemma Doubling(p: nat, n: nat, len: nat)
    requires p * n <= len / 2 < p * (n + 1)
    ensures (2 * p) * n <= len < (2 * p) * (n + 1)
  {
    assert (2 * p) * n == 2 * (p * n) && (2 * p) * (n + 1) == 2 * (p * (n + 1));
  }

  lemma NoneLeft(p: nat, n: nat, len: nat)
    requires p * n <= len < p
    ensures n == 0
  {}

  /** Repeating the flush with the same cutoff keeps one in 2^k of the old messages, so soon none. */
  lemma {:induction false} FlushConverges(stale: seq<OutboxMsg>, young: seq<OutboxMsg>, cutoff: int, k: nat)
    requires Cut(stale, young, cutoff) && young != []
    ensures FlushTimes(stale + young, cutoff, k) == Survivors(stale, k) + young
    decreases k
  {
    hide Flushed, OddOnes, Cut;
    if k == 0 {
    } else {
      FlushOrdered(stale, young, cutoff);
      CutOddOnes(stale, young, cutoff);
      FlushConverges(OddOnes(stale), young, cutoff, k - 1);
    }
  }

  lemma CutOddOnes(stale: seq<OutboxMsg>, young: seq<OutboxMsg>, cutoff: int)
    requires Cut(stale, young, cutoff)
    ensures Cut(OddOnes(stale), young, cutoff)
  {
    OddOnesMembers(stale);
  }

  /** As many flushes as the old count has binary digits leave exactly what a filter would. */
  lemma FlushConvergesToFilter(stale: seq<OutboxMsg>, young: seq<OutboxMsg>, cutoff: int, k: nat)
    requires Cut(stale, young, cutoff) && young != [] && |stale| < Pow2(k)
    ensures FlushTimes(stale + young, cutoff, k) == Young(stale + young, cutoff)
  {
    hide FlushTimes, Survivors, Young, Pow2, Cut;
    FlushConverges(stale, young, cutoff, k);
    YoungOfCut(stale, young, cutoff);
    SurvivorsCount(stale, k);
    NoneLeft(Pow2(k), |Survivors(stale, k)|, |stale|);
    assert Survivors(stale, k) + young == young;
  }

  lemma {:induction false} OddOnesMembers<T>(s: seq<T>)
    ensures forall x | x in OddOnes(s) :: x in s
  {
    if |s| < 2 {
    } else {
      OddOnesMembers(s[2..]);
    }
  }

  lemma {:induction false} YoungOfCut(stale: seq<OutboxMsg>, young: seq<OutboxMsg>, cutoff: int)
    requires Cut(stale, young, cutoff)
    ensures Young(stale + young, cutoff) == young
  {
    var q := stale + young;
    if stale == [] && young == [] {
    } else if stale != [] {
      assert stale[0] in stale && q[1..] == stale[1..] + young;
      YoungOfCut(stale[1..], young, cutoff);
    } else {
      assert q == young && young[0] in young && q[1..] == [] + young[1..];
      YoungOfCut([], young[1..], cutoff);
    }
  }

  // MsgsSince

  predicate Wanted(m: OutboxMsg, since: int, channels: seq<bytes>) {
    since < m.time && (channels == [] || m.channel in channels)
  }

  function Newer(q: seq<OutboxMsg>, since: int, channels: seq<bytes>): (r: seq<OutboxMsg>)
    ensures forall m | m in r :: since < m.time && m in q
  {
    if q == [] then []
    else if Wanted(q[0], since, channels) then [q[0]] + Newer(q[1..], since, channels)
    else Newer(q[1..], since, channels)
  }

  function Payloads(ms: seq<OutboxMsg>): (r: seq<bytes>)
    ensures |r| == |ms| && forall i | 0 <= i < |ms| :: r[i] == ms[i].msg
  {
    seq(|ms|, i requires 0 <= i < |ms| => ms[i].msg)
  }

  function BatchSize(ms: seq<OutboxMsg>): nat {
    if ms == [] then 0 else |ms[0].msg| + BatchSize(ms[1..])
  }

  /** The messages taken from ms when used bytes are taken already; a limit of 0 or less is none. */
  function Page(ms: seq<OutboxMsg>, limit: int, used: nat): (p: seq<OutboxMsg>)
    ensures p <= ms
  {
    if ms == [] || (limit > 0 && used + |ms[0].msg| > limit) then []
    else [ms[0]] + Page(ms[1..], limit, used + |ms[0].msg|)
  }

  function PageOf(q: seq<OutboxMsg>, since: int, limit: int, channels: seq<bytes>): seq<OutboxMsg> {
    Page(Newer(q, since, channels), limit, 0)
  }

  function PageTime(page: seq<OutboxMsg>, since: int): int {
    if page == [] then since else page[|page| - 1].time
  }

  predicate Fits(m: OutboxMsg, limit: int) { limit <= 0 || |m.msg| <= limit }

  /** A page is the longest prefix within the limit. */
  lemma {:induction false} PageIsMaximal(ms: seq<OutboxMsg>, limit: int, used: nat)
    requires limit > 0 ==> used <= limit
    ensures var p := Page(ms, limit, used);
      && p <= ms
      && (limit <= 0 ==> p == ms)
      && (limit > 0 ==> used + BatchSize(p) <= limit)
      && (|p| < |ms| ==> used + BatchSize(p) + |ms[|p|].msg| > limit > 0)
  {
    var p := Page(ms, limit, used);
    if p == [] {
    } else {
      var used' := used + |ms[0].msg|;
      PageIsMaximal(ms[1..], limit, used');
      assert p[1..] == Page(ms[1..], limit, used');
    }
  }

  ghost predicate Increasing(q: seq<OutboxMsg>) {
    forall i, j | 0 <= i < j < |q| :: q[i].time < q[j].time
  }

  ghost predicate NonDecreasing(q: seq<OutboxMsg>) {
    forall i, j | 0 <= i < j < |q| :: q[i].time <= q[j].time
  }

  lemma {:induction false} NewerNonDecreasing(q: seq<OutboxMsg>, since: int, channels: seq<bytes>)
    requires NonDecreasing(q)
    ensures NonDecreasing(Newer(q, since, channels))
  {
    if q == [] {
    } else {
      NewerNonDecreasing(q[1..], since, channels);
      assert forall m | m in q[1..] :: q[0].time <= m.time;
    }
  }

  lemma {:induction false} NewerIncreasing(q: seq<OutboxMsg>, since: int, channels: seq<bytes>)
    requires Increasing(q)
    ensures Increasing(Newer(q, since, channels))
  {
    if q == [] {
    } else {
      NewerIncreasing(q[1..], since, channels);
      assert forall m | m in q[1..] :: q[0].time < m.time;
    }
  }

  /** Asking again from a later time is filtering what was newer than the earlier one. */
  lemma {:induction false} NewerTwice(q: seq<OutboxMsg>, since: int, later: int, channels: seq<bytes>)
    requires since <= later
    ensures Newer(q, later, channels) == Newer(Newer(q, since, channels), later, channels)
  {
    if q == [] {
    } else {
      NewerTwice(q[1..], since, later, channels);
      if Wanted(q[0], since, channels) {
        assert Newer(q, since, channels)[1..] == Newer(q[1..], since, channels);
      }
    }
  }

  lemma {:induction false} NewerShorter(ms: seq<OutboxMsg>, later: int, channels: seq<bytes>)
    ensures |Newer(ms, later, channels)| <= |ms|
    ensures (exists m :: m in ms && m.time <= later) ==> |Newer(ms, later, channels)| < |ms|
  {
    if ms == [] {
    } else {
      NewerShorter(ms[1..], later, channels);
      assert forall m :: m in ms <==> m == ms[0] || m in ms[1..];
    }
  }

  /** The time a non-empty page returns is past the cursor and leaves fewer messages to fetch. */
  lemma PageAdvances(q: seq<OutboxMsg>, since: int, limit: int, channels: seq<bytes>)
    requires PageOf(q, since, limit, channels) != []
    ensures var t := PageTime(PageOf(q, since, limit, channels), since);
      since < t && |Newer(q, t, channels)| < |Newer(q, since, channels)|
  {
    var ms, p := Newer(q, since, channels), PageOf(q, since, limit, channels);
    var t := PageTime(p, since);
    assert p[|p| - 1] == ms[|p| - 1] && ms[|p| - 1] in ms;
    NewerTwice(q, since, t, channels);
    NewerShorter(ms, t, channels);
  }

  /** All pages from since on, each asked for with the time the one before returned, until one is empty. */
  function AllPages(q: seq<OutboxMsg>, since: int, limit: int, channels: seq<bytes>): seq<OutboxMsg>
    decreases |Newer(q, since, channels)|
  {
    var p := PageOf(q, since, limit, channels);
    if p == [] then []
    else
      PageAdvances(q, since, limit, channels);
      p + AllPages(q, PageTime(p, since), limit, channels)
  }

  /** The messages before the first one that no page can hold. */
  function Fetchable(ms: seq<OutboxMsg>, limit: int): seq<OutboxMsg> {
    if ms == [] || !Fits(ms[0], limit) then [] else [ms[0]] + Fetchable(ms[1..], limit)
  }

  lemma {:induction false} AllFetchableIff(ms: seq<OutboxMsg>, limit: int)
    ensures Fetchable(ms, limit) == ms <==> forall m | m in ms :: Fits(m, limit)
  {
    if ms == [] {
    } else {
      AllFetchableIff(ms[1..], limit);
      assert forall m :: m in ms <==> m == ms[0] || m in ms[1..];
      if Fits(ms[0], limit) {
        assert Fetchable(ms, limit)[1..] == Fetchable(ms[1..], limit);
      }
    }
  }

  lemma {:induction false} NewerSplit(ms: seq<OutboxMsg>, n: nat, later: int, channels: seq<bytes>)
    requires n <= |ms|
    requires forall m | m in ms :: channels == [] || m.channel in channels
    requires (forall m | m in ms[..n] :: m.time <= later) && forall m | m in ms[n..] :: later < m.time
    ensures Newer(ms, later, channels) == ms[n..]
  {
    if ms == [] {
    } else {
      assert ms[0] in ms;
      if n > 0 {
        assert ms[0] in ms[..n] && ms[1..][..n - 1] == ms[..n][1..] && ms[1..][n - 1..] == ms[n..];
        NewerSplit(ms[1..], n - 1, later, channels);
      } else {
        assert ms[0] in ms[n..] && ms[1..][..0] == [] && ms[1..][0..] == ms[1..];
        NewerSplit(ms[1..], 0, later, channels);
      }
    }
  }

  lemma {:induction false} NewerOnChannel(q: seq<OutboxMsg>, since: int, channels: seq<bytes>)
    ensures forall m | m in Newer(q, since, channels) :: channels == [] || m.channel in channels
  {
    if q == [] {
    } else {
      NewerOnChannel(q[1..], since, channels);
    }
  }

  lemma {:induction false} NewerOfConcat(a: seq<OutboxMsg>, b: seq<OutboxMsg>, later: int, channels: seq<bytes>)
    ensures Newer(a + b, later, channels) == Newer(a, later, channels) + Newer(b, later, channels)
  {
    if a == [] {
      assert a + b == b;
    } else {
      assert (a + b)[1..] == a[1..] + b;
      NewerOfConcat(a[1..], b, later, channels);
    }
  }

  /** The messages later than since on one of the channels, or on any if none is named, in order. */
  lemma NewerParts(x: seq<OutboxMsg>, m: OutboxMsg, y: seq<OutboxMsg>, since: int, channels: seq<bytes>)
    ensures Newer(x + [m] + y, since, channels)
            == Newer(x, since, channels)
               + (if m.time > since && (channels == [] || m.channel in channels) then [m] else [])
               + Newer(y, since, channels)
  {
    assert [m][1..] == [];
    assert Newer([m], since, channels)
        == if m.time > since && (channels == [] || m.channel in channels) then [m] else [];
    NewerOfConcat(x, [m], since, channels);
    NewerOfConcat(x + [m], y, since, channels);
  }

  lemma {:induction false} NoneNewer(ms: seq<OutboxMsg>, later: int, channels: seq<bytes>)
    requires Newer(ms, later, channels) == []
    requires forall m | m in ms :: channels == [] || m.channel in channels
    ensures forall m | m in ms :: m.time <= later
  {
    if ms == [] {
    } else {
      assert ms[0] in ms;
      NoneNewer(ms[1..], later, channels);
    }
  }

  /**
   * For any queue: the next page starts right behind a page, with nothing skipped or repeated, exactly if no
   * message of the page is later than the time it returns and every message behind it is.
   */
  lemma ResumesIff(q: seq<OutboxMsg>, since: int, limit: int, channels: seq<bytes>)
    requires PageOf(q, since, limit, channels) != []
    ensures var ms, p := Newer(q, since, channels), PageOf(q, since, limit, channels);
      var t := PageTime(p, since);
      Newer(q, t, channels) == ms[|p|..] <==>
        (forall m | m in p :: m.time <= t) && (forall m | m in ms[|p|..] :: t < m.time)
  {
    hide Newer, Page;
    var ms, p := Newer(q, since, channels), PageOf(q, since, limit, channels);
    var t, rest := PageTime(p, since), ms[|p|..];
    PageAdvances(q, since, limit, channels);
    NewerTwice(q, since, t, channels);
    NewerOnChannel(q, since, channels);
    assert ms == p + rest && ms[..|p|] == p;
    if (forall m | m in p :: m.time <= t) && (forall m | m in rest :: t < m.time) {
      NewerSplit(ms, |p|, t, channels);
    }
    if Newer(q, t, channels) == rest {
      assert forall m | m in rest :: t < m.time;
      assert rest[0..] == rest && rest[..0] == [];
      NewerSplit(rest, 0, t, channels);
      NewerOfConcat(p, rest, t, channels);
      assert |Newer(p, t, channels)| == 0;
      NoneNewer(p, t, channels);
    }
  }

  /** In time order that is so exactly if the page is not cut between two messages of the same time. */
  lemma ResumesExactlyIff(q: seq<OutboxMsg>, since: int, limit: int, channels: seq<bytes>)
    requires NonDecreasing(q)
    requires PageOf(q, since, limit, channels) != []
    ensures var ms, p := Newer(q, since, channels), PageOf(q, since, limit, channels);
      Newer(q, PageTime(p, since), channels) == ms[|p|..]
      <==> (|p| < |ms| ==> p[|p| - 1].time < ms[|p|].time)
  {
    hide Newer, Page;
    var ms, p := Newer(q, since, channels), PageOf(q, since, limit, channels);
    var t := PageTime(p, since);
    ResumesIff(q, since, limit, channels);
    NewerNonDecreasing(q, since, channels);
    assert p[|p| - 1] == ms[|p| - 1];
    forall m | m in p ensures m.time <= t {
      var i :| 0 <= i < |p| && p[i] == m;
      assert ms[i] == m;
    }
    if |p| < |ms| {
      assert ms[|p|..][0] == ms[|p|] && ms[|p|] in ms[|p|..];
      forall m | m in ms[|p|..] ensures ms[|p|].time <= m.time {
        var i :| 0 <= i < |ms[|p|..]| && ms[|p|..][i] == m;
        assert ms[|p| + i] == m;
      }
    }
  }

  /** A queue out of time order: the page holds everything, and its time lets the first message come again. */
  lemma OutOfOrderRepeats()
    ensures var q := [OutboxMsg([], [1], 9), OutboxMsg([], [2], 2)];
      PageOf(q, 0, 0, []) == q && AllPages(q, 0, 0, []) == q + q[..1]
  {
    var q := [OutboxMsg([], [1], 9), OutboxMsg([], [2], 2)];
    assert q[1..] == [q[1]] && q[1..][1..] == [];
    assert Newer(q[1..], 0, []) == [q[1]] + Newer(q[1..][1..], 0, []);
    assert Newer(q, 0, []) == q;
    PageIsMaximal(q, 0, 0);
    assert Newer(q[1..], 2, []) == [] && Newer(q[1..], 9, []) == [];
    var r := q[..1];
    assert Newer(q, 2, []) == r;
    PageIsMaximal(r, 0, 0);
    assert Newer(q, 9, []) == [] && AllPages(q, 9, 0, []) == [];
    assert AllPages(q, 2, 0, []) == r + AllPages(q, 9, 0, []);
  }

  lemma {:induction false} FetchableSplit(ms: seq<OutboxMsg>, limit: int, used: nat)
    requires limit > 0 ==> used <= limit
    ensures var p := Page(ms, limit, used);
      Fetchable(ms, limit) == p + Fetchable(ms[|p|..], limit)
  {
    var p := Page(ms, limit, used);
    if p == [] {
      assert ms[0..] == ms;
    } else {
      FetchableSplit(ms[1..], limit, used + |ms[0].msg|);
      assert ms[1..][|p| - 1..] == ms[|p|..];
      assert p[1..] == Page(ms[1..], limit, used + |ms[0].msg|);
      assert [p[0]] + (p[1..] + Fetchable(ms[|p|..], limit)) == p + Fetchable(ms[|p|..], limit);
    }
  }

  /**
   * With strictly increasing times the pages together are the newer messages on the channels, in order and each
   * once, up to the first message larger than the limit.
   */
  lemma {:induction false} PagesExact(q: seq<OutboxMsg>, since: int, limit: int, channels: seq<bytes>)
    requires Increasing(q)
    ensures AllPages(q, since, limit, channels) == Fetchable(Newer(q, since, channels), limit)
    decreases |Newer(q, since, channels)|
  {
    var ms, p := Newer(q, since, channels), PageOf(q, since, limit, channels);
    FetchableSplit(ms, limit, 0);
    if p == [] {
      PageIsMaximal(ms, limit, 0);
    } else {
      PageAdvances(q, since, limit, channels);
      NewerIncreasing(q, since, channels);
      ResumesExactlyIff(q, since, limit, channels);
      PagesExact(q, PageTime(p, since), limit, channels);
    }
  }

  /** So paging is complete exactly if every newer message fits the limit. */
  lemma PagesCompleteIff(q: seq<OutboxMsg>, since: int, limit: int, channels: seq<bytes>)
    requires Increasing(q)
    ensures AllPages(q, since, limit, channels) == Newer(q, since, channels)
            <==> forall m | m in Newer(q, since, channels) :: Fits(m, limit)
  {
    PagesExact(q, since, limit, channels);
    AllFetchableIff(Newer(q, since, channels), limit);
  }

  /** No page of the paging sequence is cut between two messages of the same time. */
  ghost predicate CleanCuts(q: seq<OutboxMsg>, since: int, limit: int, channels: seq<bytes>)
    decreases |Newer(q, since, channels)|
  {
    var ms, p := Newer(q, since, channels), PageOf(q, since, limit, channels);
    if p == [] then true
    else
      PageAdvances(q, since, limit, channels);
      (|p| < |ms| ==> p[|p| - 1].time < ms[|p|].time) && CleanCuts(q, PageTime(p, since), limit, channels)
  }

  /** In time order nothing of a page is newer than its time. */
  lemma NoneOfPageNewer(ms: seq<OutboxMsg>, n: nat, channels: seq<bytes>)
    requires NonDecreasing(ms) && 0 < n <= |ms| && forall m | m in ms :: channels == [] || m.channel in channels
    ensures Newer(ms[..n], ms[n - 1].time, channels) == []
  {
    hide Newer;
    var p, t := ms[..n], ms[n - 1].time;
    assert p[|p|..] == [] && p[..|p|] == p;
    forall m | m in p ensures m.time <= t && m in ms {
      var i :| 0 <= i < |p| && p[i] == m;
      assert ms[i] == m;
    }
    NewerSplit(p, |p|, t, channels);
  }

  /** In time order, what is newer than a page's time is part of what is behind the page. */
  lemma NewerBehindPage(q: seq<OutboxMsg>, since: int, limit: int, channels: seq<bytes>)
    requires NonDecreasing(q) && PageOf(q, since, limit, channels) != []
    ensures var ms, p := Newer(q, since, channels), PageOf(q, since, limit, channels);
      var rest, t := ms[|p|..], PageTime(p, since);
      && Newer(q, t, channels) == Newer(rest, t, channels)
      && |Newer(q, t, channels)| <= |rest|
      && (|p| < |ms| && p[|p| - 1].time == ms[|p|].time ==> |Newer(q, t, channels)| < |rest|)
  {
    hide Newer, Page, NonDecreasing;
    var ms, p := Newer(q, since, channels), PageOf(q, since, limit, channels);
    var rest, t := ms[|p|..], PageTime(p, since);
    PageAdvances(q, since, limit, channels);
    NewerTwice(q, since, t, channels);
    NewerNonDecreasing(q, since, channels);
    NewerOnChannel(q, since, channels);
    assert ms == p + rest && ms[..|p|] == p && p[|p| - 1] == ms[|p| - 1];
    NewerOfConcat(p, rest, t, channels);
    NoneOfPageNewer(ms, |p|, channels);
    assert [] + Newer(rest, t, channels) == Newer(rest, t, channels);
    NewerShorter(rest, t, channels);
    if |p| < |ms| && p[|p| - 1].time == ms[|p|].time { assert rest[0] == ms[|p|] && rest[0] in rest; }
  }

  lemma {:induction false} AllPagesLength(q: seq<OutboxMsg>, since: int, limit: int, channels: seq<bytes>)
    requires NonDecreasing(q)
    ensures |AllPages(q, since, limit, channels)| <= |Newer(q, since, channels)|
    decreases |Newer(q, since, channels)|
  {
    hide Newer, Page, NonDecreasing;
    var p := PageOf(q, since, limit, channels);
    if p == [] {
    } else {
      PageAdvances(q, since, limit, channels);
      NewerBehindPage(q, since, limit, channels);
      AllPagesLength(q, PageTime(p, since), limit, channels);
    }
  }

  /**
   * With times that never decrease, paging is complete exactly if every newer message fits the limit and no cut
   * separates equal times.
   */
  lemma {:induction false} PagesCompleteInOrderIff(q: seq<OutboxMsg>, since: int, limit: int, channels: seq<bytes>)
    requires NonDecreasing(q)
    ensures AllPages(q, since, limit, channels) == Newer(q, since, channels)
            <==> CleanCuts(q, since, limit, channels) && forall m | m in Newer(q, since, channels) :: Fits(m, limit)
    decreases |Newer(q, since, channels)|
  {
    hide Newer, Page, NonDecreasing, Fits, Fetchable;
    var ms, p := Newer(q, since, channels), PageOf(q, since, limit, channels);
    AllFetchableIff(ms, limit);
    FetchableSplit(ms, limit, 0);
    if p == [] {
      PageIsMaximal(ms, limit, 0);
      NoneFetchable(ms, limit);
    } else {
      var t, rest := PageTime(p, since), ms[|p|..];
      PageAdvances(q, since, limit, channels);
      ResumesExactlyIff(q, since, limit, channels);
      NewerBehindPage(q, since, limit, channels);
      PagesCompleteInOrderIff(q, t, limit, channels);
      AllPagesLength(q, t, limit, channels);
      AllFetchableIff(rest, limit);
      assert ms == p + rest;
    }
  }

  lemma NoneFetchable(ms: seq<OutboxMsg>, limit: int)
    requires ms != [] ==> Page(ms, limit, 0) == []
    ensures Fetchable(ms, limit) == []
  {}

  /** Two messages of one time, cut apart by the limit: the second is never fetched. */
  lemma EqualTimesSkipMessage()
    ensures var q := [OutboxMsg([], [1], 7), OutboxMsg([], [2], 7)];
      NonDecreasing(q) && AllPages(q, 0, 1, []) == q[..1]
  {
    var q := [OutboxMsg([], [1], 7), OutboxMsg([], [2], 7)];
    assert q[1..] == [q[1]] && q[1..][1..] == [];
    assert Newer(q, 0, []) == [q[0]] + ([q[1]] + []);
    assert Page(q, 1, 0) == [q[0]] + Page(q[1..], 1, 1);
    assert Page(q[1..], 1, 1) == [];
    assert PageOf(q, 0, 1, []) == [q[0]];
    assert Newer(q[1..], 7, []) == Newer(q[1..][1..], 7, []) == [];
    assert Newer(q, 7, []) == [];
    assert AllPages(q, 7, 1, []) == [];
  }
}
