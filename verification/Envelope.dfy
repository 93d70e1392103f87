/** The header in front of an encrypted message, and the patches a router applies to it. */
module Envelope {
  import opened Bytes

  datatype Msg = Msg(name: bytes, content: bytes, isChan: bool, chunked: bool, streamHeader: bool)

  const STREAM_HEADER_FLAG := 0x01
  const CHUNKED_FLAG := 0x02
  const CHANNEL_FLAG := 0x04
  const NONCE_SIZE := 32
  const MAX_NAME := 65532  // the longest name for which the end of the name fits in 16 bits

  function Flags(m: Msg): (f: byte)
    ensures f < 8
  {
    ((if m.isChan then CHANNEL_FLAG else 0) + (if m.chunked then CHUNKED_FLAG else 0)
     + if m.streamHeader then STREAM_HEADER_FLAG else 0) as byte
  }

  /** The bytes Forward and SendMsg queue: flags, for a channel its name with a big-endian length, content. */
  function Seal(m: Msg): bytes {
    var t := |m.name| % TWO_16;
    [Flags(m)]
    + (if m.isChan then [(t / 256) as byte, (t % 256) as byte] + m.name else [])
    + m.content
  }

  datatype Opened =
    | Opened(msg: Msg, nonce: bytes)
    | Malformed  // the error Route returns
    | Crash      // an index or slice bound out of range, which panics

  function FlagSet(flags: byte, flag: int): bool
    requires flag > 0
  {
    flags as int / flag % 2 == 1
  }

  /** The header parse at the top of Route, with the uint16 bound of the name's slice. */
  function Open(s: bytes): Opened {
    if s == [] then Crash
    else if !FlagSet(s[0], CHANNEL_FLAG) then
      OpenContent(s, [], 1)
    else if |s| < 3 then Crash
    else
      var channelLen := s[1] as nat * 256 + s[2] as nat;
      var end := (3 + channelLen) % TWO_16;
      if end < 3 || end > |s| then Crash else OpenContent(s, s[3..end], 3 + channelLen)
  }

  function OpenContent(s: bytes, name: bytes, idx: nat): Opened
    requires s != []
  {
    if idx + 16 >= |s| then Malformed
    else if idx + NONCE_SIZE > |s| then Crash
    else
      var msg := Msg(name, s[idx..], FlagSet(s[0], CHANNEL_FLAG), FlagSet(s[0], CHUNKED_FLAG),
                     FlagSet(s[0], STREAM_HEADER_FLAG));
      Opened.Opened(msg, s[idx..idx + NONCE_SIZE])
  }

  /** The bytes of a header: 1 for a stream header, 2 for a chunk of any kind, 4 for a channel, whose name follows. */
  lemma HeaderBytes(m: Msg)
    requires m.isChan ==> |m.name| < TWO_16
    ensures Seal(m)[0] as nat == (if m.streamHeader then 1 else 0) + (if m.chunked then 2 else 0)
                                 + if m.isChan then 4 else 0
    ensures if m.isChan then
              && |Seal(m)| == 3 + |m.name| + |m.content|
              && Seal(m)[1] as nat == |m.name| / 256 && Seal(m)[2] as nat == |m.name| % 256
              && Seal(m)[3..] == m.name + m.content
            else Seal(m)[1..] == m.content
  {
    SealedParts(m);
    assert |m.name| < TWO_16 ==> |m.name| % TWO_16 == |m.name|;
  }

  lemma FlagsRead(m: Msg)
    ensures FlagSet(Flags(m), CHANNEL_FLAG) == m.isChan
    ensures FlagSet(Flags(m), CHUNKED_FLAG) == m.chunked
    ensures FlagSet(Flags(m), STREAM_HEADER_FLAG) == m.streamHeader
  {}

  lemma FlagsOf(f: byte, m: Msg)
    requires m.isChan == FlagSet(f, CHANNEL_FLAG) && m.chunked == FlagSet(f, CHUNKED_FLAG)
    requires m.streamHeader == FlagSet(f, STREAM_HEADER_FLAG)
    ensures Flags(m) == f <==> f < 8
  {}

  /** What the receiver can know of a message: a private message carries no name. */
  function OnWire(m: Msg): Msg {
    if m.isChan then m else m.(name := [])
  }

  lemma SealedParts(m: Msg)
    ensures var s := Seal(m);
      && s != [] && s[0] == Flags(m)
      && (m.isChan ==>
          && |s| == 3 + |m.name| + |m.content|
          && s[1] as nat * 256 + s[2] as nat == |m.name| % TWO_16
          && s[3..] == m.name + m.content)
      && (!m.isChan ==> s[1..] == m.content)
  {}

  lemma OpenSeal(m: Msg)
    requires |m.content| >= NONCE_SIZE
    requires m.isChan ==> |m.name| <= MAX_NAME
    ensures Open(Seal(m)) == Opened.Opened(OnWire(m), m.content[..NONCE_SIZE])
  {
    var s := Seal(m);
    SealedParts(m);
    FlagsRead(m);
    if m.isChan {
      var end := 3 + |m.name|;
      assert s[3..end] == s[3..][..|m.name|] == m.name;
      assert s[end..] == s[3..][|m.name|..] == m.content;
      assert s[end..end + NONCE_SIZE] == s[end..][..NONCE_SIZE];
    } else {
      assert s[1..1 + NONCE_SIZE] == s[1..][..NONCE_SIZE];
    }
  }

  /** The content survives the 16-bit header arithmetic exactly for names of at most 65532 bytes. */
  lemma ContentSurvivesIff(m: Msg)
    requires |m.content| >= NONCE_SIZE && m.isChan
    ensures (Open(Seal(m)).Opened? && Open(Seal(m)).msg.content == m.content) <==> |m.name| <= MAX_NAME
  {
    if |m.name| <= MAX_NAME {
      OpenSeal(m);
    } else {
      var s := Seal(m);
      SealedParts(m);
      FlagsRead(m);
      var channelLen := |m.name| % TWO_16;
      if Open(s).Opened? {
        assert Open(s).msg.content == s[3 + channelLen..];
        assert |s[3 + channelLen..]| == |m.name| - channelLen + |m.content|;
        assert channelLen < |m.name|;
      }
    }
  }

  lemma OpenedParts(s: bytes)
    requires Open(s).Opened? && Open(s).msg.isChan
    ensures var m := Open(s).msg;
      && |s| >= 3 && |m.name| == s[1] as nat * 256 + s[2] as nat <= MAX_NAME
      && s[3..] == m.name + m.content
  {
    var channelLen := s[1] as nat * 256 + s[2] as nat;
    assert (3 + channelLen) % TWO_16 == 3 + channelLen;
    assert s[3..] == s[3..3 + channelLen] + s[3 + channelLen..];
  }

  lemma OpenedPlain(s: bytes)
    requires Open(s).Opened? && !Open(s).msg.isChan
    ensures s != [] && Open(s).msg.content == s[1..]
  {}

  lemma ResealTail(s: bytes)
    requires Open(s).Opened?
    ensures s != [] && Seal(Open(s).msg)[1..] == s[1..]
  {
    hide Open, Seal, Flags;
    var m := Open(s).msg;
    SealedParts(m);
    if m.isChan {
      OpenedParts(s);
      SameTail(s, Seal(m));
    } else {
      OpenedPlain(s);
    }
  }

  lemma SameTail(s: bytes, t: bytes)
    requires |s| >= 3 && |t| >= 3 && s[3..] == t[3..]
    requires s[1] as nat * 256 + s[2] as nat == t[1] as nat * 256 + t[2] as nat
    ensures s[1..] == t[1..]
  {
    assert s[1] == t[1] && s[2] == t[2];
    assert s[1..] == [s[1], s[2]] + s[3..] && t[1..] == [t[1], t[2]] + t[3..];
  }

  /** Sealing what was opened gives back the same bytes exactly if no undefined flag bit was set. */
  lemma ResealIsIdentityIff(s: bytes)
    requires Open(s).Opened?
    ensures Seal(Open(s).msg) == s <==> s[0] < 8
  {
    var m := Open(s).msg;
    SealedParts(m);
    FlagsOf(s[0], m);
    ResealTail(s);
    var t := Seal(m);
    hide Seal, Open, Flags;
    assert t == [t[0]] + t[1..] && s == [s[0]] + s[1..];
  }

  // Patches

  datatype Patch = Patch(from: bytes, to: seq<bytes>)

  /** The messages the router hands to Forward: one for each target of the first patch that matches, else itself. */
  function Redirect(patches: seq<Patch>, m: Msg): (r: seq<Msg>)
    ensures forall x | x in r :: x.content == m.content
  {
    if patches == [] then [m]
    else if m.name == patches[0].from then
      var to := patches[0].to;
      seq(|to|, i requires 0 <= i < |to| => m.(name := to[i], isChan := to[i] != []))
    else Redirect(patches[1..], m)
  }

  /** The first matching patch sends one copy to each of its targets; the empty target is the private channel. */
  lemma {:induction false} RedirectPatched(patches: seq<Patch>, m: Msg, j: nat)
    requires j < |patches| && patches[j].from == m.name
    requires forall i | 0 <= i < j :: patches[i].from != m.name
    ensures var r, to := Redirect(patches, m), patches[j].to;
      && |r| == |to|
      && forall i | 0 <= i < |to| ::
           r[i].name == to[i] && (r[i].isChan <==> to[i] != []) && r[i].content == m.content
  {
    if j == 0 {
    } else {
      RedirectPatched(patches[1..], m, j - 1);
    }
  }

  lemma {:induction false} RedirectUnpatched(patches: seq<Patch>, m: Msg)
    requires forall p | p in patches :: p.from != m.name
    ensures Redirect(patches, m) == [m]
  {
    if patches == [] {
    } else {
      assert patches[0] in patches;
      RedirectUnpatched(patches[1..], m);
    }
  }

  /** Without a matching patch the forwarded bytes are the received ones, exactly for the three defined flags. */
  lemma UnpatchedIsIdentityIff(patches: seq<Patch>, s: bytes)
    requires Open(s).Opened? && forall p | p in patches :: p.from != Open(s).msg.name
    ensures (forall x | x in Redirect(patches, Open(s).msg) :: Seal(x) == s) <==> s[0] < 8
  {
    RedirectUnpatched(patches, Open(s).msg);
    ResealIsIdentityIff(s);
    hide Open, Seal;
    assert Open(s).msg in Redirect(patches, Open(s).msg);
  }

  ghost predicate ShortNames(patches: seq<Patch>) {
    forall p | p in patches :: forall t | t in p.to :: |t| <= MAX_NAME
  }

  function FanOut(patches: seq<Patch>): nat {
    if patches == [] then 1
    else
      var others := FanOut(patches[1..]);
      if |patches[0].to| > others then |patches[0].to| else others
  }

  lemma {:induction false} RedirectBounds(patches: seq<Patch>, m: Msg)
    requires ShortNames(patches) && (m.isChan ==> |m.name| <= MAX_NAME)
    ensures |Redirect(patches, m)| <= FanOut(patches)
    ensures forall x | x in Redirect(patches, m) :: x.isChan ==> |x.name| <= MAX_NAME
  {
    if patches == [] {
    } else {
      if m.name == patches[0].from {
        var r := Redirect(patches, m);
        forall x | x in r ensures x.isChan ==> |x.name| <= MAX_NAME {
          var i :| 0 <= i < |r| && r[i] == x;
          assert patches[0].to[i] in patches[0].to;
        }
      } else {
        assert ShortNames(patches[1..]) by {
          forall p | p in patches[1..] ensures forall t | t in p.to :: |t| <= MAX_NAME { assert p in patches; }
        }
        RedirectBounds(patches[1..], m);
      }
    }
  }

  /** One router's step from bytes to bytes; the name of a private message may have become a profile's. */
  ghost predicate Hop(patches: seq<Patch>, s: bytes, s': bytes) {
    exists m: Msg, x: Msg ::
      && Open(s).Opened? && m.(name := []) == Open(s).msg.(name := [])
      && (m.isChan ==> m == Open(s).msg)
      && x in Redirect(patches, m) && s' == Seal(x)
  }

  lemma OpenedName(s: bytes)
    requires Open(s).Opened? && Open(s).msg.isChan
    ensures |Open(s).msg.name| <= MAX_NAME
  {
    OpenedParts(s);
  }

  lemma OpenedContent(s: bytes)
    requires Open(s).Opened?
    ensures var o := Open(s); |o.msg.content| >= NONCE_SIZE && o.nonce == o.msg.content[..NONCE_SIZE]
  {}

  lemma HopKeepsContent(patches: seq<Patch>, s: bytes, s': bytes)
    requires ShortNames(patches) && Hop(patches, s, s')
    ensures Open(s').Opened? && Open(s').msg.content == Open(s).msg.content && Open(s').nonce == Open(s).nonce
    ensures Open(s').msg.chunked == Open(s).msg.chunked
    ensures Open(s').msg.streamHeader == Open(s).msg.streamHeader
  {
    var m: Msg, x: Msg :|
      && Open(s).Opened? && m.(name := []) == Open(s).msg.(name := [])
      && (m.isChan ==> m == Open(s).msg)
      && x in Redirect(patches, m) && s' == Seal(x);
    if m.isChan { OpenedName(s); }
    OpenedContent(s);
    assert m.content == Open(s).msg.content;
    RedirectBounds(patches, m);
    RedirectFlags(patches, m);
    OpenSeal(x);
  }

  lemma {:induction false} RedirectFlags(patches: seq<Patch>, m: Msg)
    ensures forall x | x in Redirect(patches, m) :: x.chunked == m.chunked && x.streamHeader == m.streamHeader
  {
    if patches == [] {
    } else {
      RedirectFlags(patches[1..], m);
    }
  }

  /** Along any path of routers the content, and with it the loop-detection nonce, stays what it was. */
  lemma {:induction false} PathKeepsContent(routers: seq<seq<Patch>>, path: seq<bytes>)
    requires |path| == |routers| + 1 && Open(path[0]).Opened?
    requires forall i | 0 <= i < |routers| :: ShortNames(routers[i]) && Hop(routers[i], path[i], path[i + 1])
    ensures var last := path[|routers|];
      && Open(last).Opened?
      && Open(last).msg.content == Open(path[0]).msg.content && Open(last).nonce == Open(path[0]).nonce
    decreases |routers|
  {
    if routers == [] {
    } else {
      var n := |routers| - 1;
      PathKeepsContent(routers[..n], path[..n + 1]);
      HopKeepsContent(routers[n], path[n], path[n + 1]);
    }
  }
}
