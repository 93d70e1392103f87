/** The RAM node's outbox: a slice over a backing array, appended to, and shifted in place by Flush. */
module Outbox {
  import opened Bytes
  import opened OutboxSpec

  const NANOSECONDS := 1000000000

  class OutboxQueue {
    var outbox: array<OutboxMsg>  // the backing array of the slice
    var len: nat                  // the length of the slice

    ghost predicate Valid()
      reads this
    {
      len <= outbox.Length
    }

    ghost function Contents(): seq<OutboxMsg>
      requires Valid()
      reads this, outbox
    {
      outbox[..len]
    }

    constructor ()
      ensures Valid() && fresh(outbox) && Contents() == []
    {
      outbox, len := new OutboxMsg[0], 0;
    }

    method Append(m: OutboxMsg)
      requires Valid()
      modifies this, outbox
      ensures Valid() && (outbox == old(outbox) || fresh(outbox))
      ensures Contents() == old(Contents()) + [m]
    {
      if len == outbox.Length {
        var grown := new OutboxMsg[2 * len + 1](_ => m);
        forall i | 0 <= i < len {
          grown[i] := outbox[i];
        }
        outbox := grown;
      }
      outbox[len] := m;
      len := len + 1;
    }

    /** append(outbox[:index], outbox[index+1:]...): the slots up to len move down, the last keeps its value. */
    method RemoveAt(index: nat)
      requires Valid() && index < len
      modifies this`len, outbox
      ensures Valid() && len == old(len) - 1
      ensures outbox[..] == Shifted(old(outbox[..]), index, old(len))
    {
      forall i | index <= i < len - 1 {
        outbox[i] := outbox[i + 1];
      }
      len := len - 1;
    }

    /**
     * The loop visits every slot the queue had at the start, in the backing array it had then, while the queue
     * shrinks under it.
     */
    method Flush(now: int, maxAgeSeconds: int)
      requires Valid()
      modifies this, outbox
      ensures Valid() && (outbox == old(outbox) || fresh(outbox))
      ensures Contents() == Flushed(old(Contents()), now - maxAgeSeconds * 1_000_000_000)
    {
      hide Pass, Wiped, FlushPass, Shifted;
      var c := now - maxAgeSeconds * NANOSECONDS;
      ghost var q := Contents();
      PassStarts(q, c);
      var ranged, n := outbox, len;
      var reset := false;
      assert ranged[..n] == q;
      for index := 0 to n
        invariant Valid() && ranged == old(outbox) && n == |q| <= ranged.Length
        invariant reset ==> fresh(outbox) && len == 0 && Wiped(q, c)
        invariant !reset ==> outbox == ranged && len <= n && Pass(q, c, ranged[..n], index, len)
      {
        ghost var before, slots, size := ranged[..n], ranged[..], len;
        if ranged[index].time < c {
          if len > index {
            RemoveAt(index);
            ShiftedTake(slots, n, index, size);
            assert ranged[..][..n] == ranged[..n] && slots[..n] == before;
            PassRemoves(q, c, before, index, size);
          } else {
            if !reset { PassWipes(q, c, before, index, len); }
            outbox, len, reset := new OutboxMsg[0], 0, true;
          }
        } else if !reset {
          PassSkips(q, c, before, index, len);
        }
      }
      if !reset {
        PassEnds(q, c, ranged[..n], len);
        assert outbox[..len] == ranged[..n][..len];
      }
    }

    /** The payloads of one page, the time to ask from next, and whether the oversize event was raised. */
    method MsgsSince(lastTime: int, maxBytes: int, channelNames: seq<bytes>)
      returns (msgs: seq<bytes>, time: int, tooBig: bool)
      requires Valid()
      ensures var page := PageOf(Contents(), lastTime, maxBytes, channelNames);
        msgs == Payloads(page) && time == PageTime(page, lastTime)
      ensures var page := PageOf(Contents(), lastTime, maxBytes, channelNames);
        tooBig <==> BatchSize(page) == 0 && |page| < |Newer(Contents(), lastTime, channelNames)|
      ensures tooBig ==> exists m :: m in Contents() && !Fits(m, maxBytes)
    {
      hide Progress, PageOf, BatchSize, Newer;
      msgs, time, tooBig := [], lastTime, false;
      ghost var q := Contents();
      ghost var page: seq<OutboxMsg> := [];
      ProgressStarts(q, lastTime, maxBytes, channelNames);
      for i := 0 to len
        invariant msgs == Payloads(page) && time == PageTime(page, lastTime) && !tooBig
        invariant Progress(q, lastTime, maxBytes, channelNames, page, i)
      {
        var mail := outbox[i];
        if lastTime < mail.time {
          var pickup := OnChannels(mail.channel, channelNames);
          if pickup {
            var size := SizeOf(msgs, page);
            var proposed := |mail.msg| + size;
            if maxBytes > 0 && proposed > maxBytes {
              tooBig := size == 0;
              assert mail in q;
              ProgressStops(q, lastTime, maxBytes, channelNames, page, i);
              return;
            }
            ProgressTakes(q, lastTime, maxBytes, channelNames, page, i);
            time := mail.time;
            msgs := msgs + [mail.msg];
            page := page + [mail];
          } else {
            ProgressSkips(q, lastTime, maxBytes, channelNames, page, i);
          }
        } else {
          ProgressSkips(q, lastTime, maxBytes, channelNames, page, i);
        }
      }
      ProgressEnds(q, lastTime, maxBytes, channelNames, page);
    }

    static method SizeOf(msgs: seq<bytes>, ghost page: seq<OutboxMsg>) returns (size: nat)
      requires msgs == Payloads(page)
      ensures size == BatchSize(page)
    {
      size := 0;
      for j := 0 to |msgs|
        invariant size + BatchSize(page[j..]) == BatchSize(page)
      {
        assert page[j..][1..] == page[j + 1..];
        size := size + |msgs[j]|;
      }
    }

    static method OnChannels(channel: bytes, channelNames: seq<bytes>) returns (pickup: bool)
      ensures pickup <==> channelNames == [] || channel in channelNames
    {
      pickup := false;
      if |channelNames| > 0 {
        for i := 0 to |channelNames|
          invariant pickup <==> channel in channelNames[..i]
        {
          if channelNames[i] == channel {
            pickup := true;
          }
        }
      } else {
        pickup := true;
      }
    }
  }

  lemma {:induction false} BatchSizeSnoc(ms: seq<OutboxMsg>, m: OutboxMsg)
    ensures BatchSize(ms + [m]) == BatchSize(ms) + |m.msg|
  {
    if ms == [] {
      assert ms + [m] == [m];
    } else {
      assert (ms + [m])[1..] == ms[1..] + [m];
      BatchSizeSnoc(ms[1..], m);
    }
  }

  /** The slots after the element at index of a queue of length len is deleted. */
  ghost function Shifted(a: seq<OutboxMsg>, index: nat, len: nat): seq<OutboxMsg>
    requires index < len <= |a|
  {
    a[..index] + a[index + 1..len] + a[len - 1..]
  }

  lemma ShiftedTake(a: seq<OutboxMsg>, n: nat, index: nat, len: nat)
    requires index < len <= n <= |a|
    ensures Shifted(a, index, len)[..n] == Shifted(a[..n], index, len)
  {
    var x, y := Shifted(a, index, len)[..n], Shifted(a[..n], index, len);
    forall i | 0 <= i < n ensures x[i] == y[i] {
      if i < index {
        assert x[i] == a[i] == y[i];
      } else if i < len - 1 {
        assert x[i] == a[i + 1] == y[i];
      } else {
        assert x[i] == a[i] == y[i];
      }
    }
  }

  // The deletion loop, before any reset: a holds the ranged slots, the first len of which are the queue.

  ghost predicate Pass(q: seq<OutboxMsg>, c: int, a: seq<OutboxMsg>, index: nat, len: nat) {
    && |a| == |q| && len <= |q| && index <= |q|
    // what is settled and what is to come
    && FlushPass(q, c) == Settled(a, c, index, len)
    // slots behind the queue, and the queue's last one while it is still ahead, hold the original last message
    && (forall j | len <= j < |q| :: a[j] == q[|q| - 1])
    && (index < len ==> a[len - 1] == q[|q| - 1])
    && (len == |q| ==> a == q && forall j | 0 <= j < index :: !Old(q[j], c))
    && (len < |q| ==> exists j :: 0 <= j < index && Old(q[j], c))
    && (index == |q| ==> !Wiped(q, c))
  }

  lemma PassStarts(q: seq<OutboxMsg>, c: int)
    ensures Pass(q, c, q, 0, |q|)
  {
    assert q[0..|q|] == q && q[..0] + FlushPass(q, c) == FlushPass(q, c);
  }

  ghost function Settled(a: seq<OutboxMsg>, c: int, index: nat, len: nat): seq<OutboxMsg>
    requires index <= |a| && len <= |a|
  {
    if index <= len then a[..index] + FlushPass(a[index..len], c) else a[..len]
  }

  lemma SkipSettles(a: seq<OutboxMsg>, c: int, index: nat, len: nat)
    requires index < |a| && len <= |a| && !Old(a[index], c)
    ensures Settled(a, c, index, len) == Settled(a, c, index + 1, len)
  {
    if index < len {
      var x, rest := a[index], FlushPass(a[index + 1..len], c);
      assert a[index..len][1..] == a[index + 1..len];
      assert a[..index] + ([x] + rest) == a[..index + 1] + rest;
    } else if index == len {
      assert a[..index] + [] == a[..len];
    }
  }

  lemma PassSkips(q: seq<OutboxMsg>, c: int, a: seq<OutboxMsg>, index: nat, len: nat)
    requires Pass(q, c, a, index, len) && index < |q| && !Old(a[index], c)
    ensures Pass(q, c, a, index + 1, len)
  {
    SkipSettles(a, c, index, len);
    hide Settled;
  }

  lemma RemovalSettles(a: seq<OutboxMsg>, c: int, index: nat, len: nat)
    requires index < len <= |a| && Old(a[index], c)
    ensures Settled(a, c, index, len) == Settled(Shifted(a, index, len), c, index + 1, len - 1)
  {
    var b := Shifted(a, index, len);
    var w := a[index..len];
    assert b[..index] == a[..index];
    if |w| == 1 {
      assert a[..index] + [] == a[..index];
    } else {
      var x := a[index + 1];
      assert w[1] == x && w[2..] == a[index + 2..len] == b[index + 1..len - 1];
      assert b[..index + 1] == a[..index] + [x];
      assert a[..index] + ([x] + FlushPass(w[2..], c)) == b[..index + 1] + FlushPass(w[2..], c);
    }
  }

  lemma PassRemoves(q: seq<OutboxMsg>, c: int, a: seq<OutboxMsg>, index: nat, len: nat)
    requires Pass(q, c, a, index, len) && index < len && Old(a[index], c)
    ensures Pass(q, c, Shifted(a, index, len), index + 1, len - 1)
  {
    RemovalSettles(a, c, index, len);
    hide Settled;
    assert exists j :: 0 <= j < index + 1 && Old(q[j], c) by {
      if len == |q| { assert Old(q[index], c); }
    }
  }

  lemma PassWipes(q: seq<OutboxMsg>, c: int, a: seq<OutboxMsg>, index: nat, len: nat)
    requires Pass(q, c, a, index, len) && len <= index < |q| && Old(a[index], c)
    ensures Wiped(q, c)
  {
    var j :| 0 <= j < index && Old(q[j], c);
    assert 0 <= j < |q| - 1;
  }

  lemma PassEnds(q: seq<OutboxMsg>, c: int, a: seq<OutboxMsg>, len: nat)
    requires Pass(q, c, a, |q|, len)
    ensures Flushed(q, c) == a[..len]
  {
    if len == |q| {
      assert a[..len] == a && a[|q|..len] == [] && a[..|q|] + [] == a;
    }
  }

  // The page loop: page is taken, and the messages from index i on are still to be looked at.

  ghost predicate Progress(q: seq<OutboxMsg>, since: int, limit: int, channels: seq<bytes>,
                           page: seq<OutboxMsg>, i: nat) {
    && i <= |q|
    && Newer(q, since, channels) == page + Newer(q[i..], since, channels)
    && PageOf(q, since, limit, channels) == page + Page(Newer(q[i..], since, channels), limit, BatchSize(page))
  }

  lemma ProgressStarts(q: seq<OutboxMsg>, since: int, limit: int, channels: seq<bytes>)
    ensures Progress(q, since, limit, channels, [], 0)
  {
    assert q[0..] == q;
    var p := PageOf(q, since, limit, channels);
    assert [] + p == p && [] + Newer(q, since, channels) == Newer(q, since, channels);
  }

  lemma ProgressSkips(q: seq<OutboxMsg>, since: int, limit: int, channels: seq<bytes>,
                      page: seq<OutboxMsg>, i: nat)
    requires Progress(q, since, limit, channels, page, i) && i < |q| && !Wanted(q[i], since, channels)
    ensures Progress(q, since, limit, channels, page, i + 1)
  {
    hide Page;
    assert q[i..][1..] == q[i + 1..];
  }

  lemma ProgressTakes(q: seq<OutboxMsg>, since: int, limit: int, channels: seq<bytes>,
                      page: seq<OutboxMsg>, i: nat)
    requires Progress(q, since, limit, channels, page, i) && i < |q| && Wanted(q[i], since, channels)
    requires limit > 0 ==> BatchSize(page) + |q[i].msg| <= limit
    ensures Progress(q, since, limit, channels, page + [q[i]], i + 1)
  {
    hide BatchSize, Page, Newer;
    var x, rest := q[i], Newer(q[i + 1..], since, channels);
    NewerFirst(q, since, channels, i);
    BatchSizeSnoc(page, x);
    PageFirst(x, rest, limit, BatchSize(page));
    var p := Page(rest, limit, BatchSize(page) + |x.msg|);
    assert page + ([x] + p) == page + [x] + p && page + ([x] + rest) == page + [x] + rest;
  }

  lemma NewerFirst(q: seq<OutboxMsg>, since: int, channels: seq<bytes>, i: nat)
    requires i < |q| && Wanted(q[i], since, channels)
    ensures Newer(q[i..], since, channels) == [q[i]] + Newer(q[i + 1..], since, channels)
  {
    assert q[i..][1..] == q[i + 1..];
  }

  lemma PageFirst(x: OutboxMsg, rest: seq<OutboxMsg>, limit: int, used: nat)
    requires limit > 0 ==> used + |x.msg| <= limit
    ensures Page([x] + rest, limit, used) == [x] + Page(rest, limit, used + |x.msg|)
  {
    assert ([x] + rest)[1..] == rest;
  }

  lemma ProgressStops(q: seq<OutboxMsg>, since: int, limit: int, channels: seq<bytes>,
                      page: seq<OutboxMsg>, i: nat)
    requires Progress(q, since, limit, channels, page, i) && i < |q| && Wanted(q[i], since, channels)
    requires limit > 0 && BatchSize(page) + |q[i].msg| > limit
    ensures PageOf(q, since, limit, channels) == page && |page| < |Newer(q, since, channels)|
  {
    hide BatchSize;
    assert Newer(q[i..], since, channels)[0] == q[i];
    assert page + [] == page;
  }

  lemma ProgressEnds(q: seq<OutboxMsg>, since: int, limit: int, channels: seq<bytes>, page: seq<OutboxMsg>)
    requires Progress(q, since, limit, channels, page, |q|)
    ensures PageOf(q, since, limit, channels) == page == Newer(q, since, channels)
  {
    assert page + [] == page;
  }
}
