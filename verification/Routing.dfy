/** What the default router does with a message that is new to it. */
module Routing {
  import opened Bytes
  import opened OutboxSpec
  import opened Envelope
  import opened Reassembly
  import opened NodeSpec
  import opened RouteProofs
  import RecentBuffer

  /** NewDefaultRouter. */
  const DEFAULT := Settings(
    checkContent := true, checkChannels := true, checkProfiles := false,
    forwardConsumedContent := false, forwardConsumedChannels := true, forwardConsumedProfiles := false,
    forwardUnknownContent := true, forwardUnknownChannels := true, forwardUnknownProfiles := false)

  /** A message that parses, uses the defined flags only, and was not seen recently. */
  ghost predicate NewMessage(cfg: Config, st: State, s: bytes) {
    Open(s).Opened? && s[0] < 8 && cfg.crc(Open(s).nonce) !in st.window
  }

  /** The bytes of s go on unchanged, on the channel they came in on. */
  function Relayed(cfg: Config, st: State, s: bytes, m: Msg): seq<OutboxMsg> {
    st.outbox + [OutboxMsg(if m.isChan then m.name else [], s, cfg.clock(st.ticks))]
  }

  lemma RelaysUnchanged(cfg: Config, st: State, s: bytes)
    requires Open(s).Opened? && s[0] < 8 && cfg.patches == []
    ensures EnqueueAll(cfg, st, Redirect(cfg.patches, Open(s).msg))
            == st.(outbox := Relayed(cfg, st, s, Open(s).msg), ticks := st.ticks + 1)
  {
    ResealIsIdentityIff(s);
    hide Open, Seal;
    var m := Open(s).msg;
    assert Redirect([], m) == [m] && [m][1..] == [];
    assert EnqueueAll(cfg, Enqueue(cfg, st, m), []) == Enqueue(cfg, st, m);
  }

  /**
   * A new channel message goes out unchanged on the channel it came in on, whether this node has its key or not,
   * exactly unless its decryption returns an error or gives a fragment too short to hold its numbers.
   */
  lemma ChannelMessageIsRelayed(cfg: Config, st: State, s: bytes)
    requires cfg.settings == DEFAULT && cfg.patches == [] && NewMessage(cfg, st, s) && Open(s).msg.isChan
    ensures var (st', r) := Route(cfg, st, s);
      var m := Open(s).msg;
      && (r.Routed? <==> !Undecryptable(cfg, m) && !ShortFragment(cfg, m))
      && st'.outbox == (if r.Routed? then Relayed(cfg, st, s, m) else st.outbox)
      && st'.rx == if m.name in cfg.channels then Handle(cfg, st, m).0.rx else st.rx
  {
    var m := Open(s).msg;
    var st1 := st.(window := RecentBuffer.After(st.window, cfg.crc(Open(s).nonce)));
    HandleIgnoresWindow(cfg, st, st1, m);
    if m.name in cfg.channels { HandleReads(cfg, st1, m); }
    hide Open, Handle, EnqueueAll, Redirect, Relayed, Reading, RecentBuffer.After;
    var st2 := if m.name in cfg.channels then Handle(cfg, st1, m).0 else st1;
    RelaysUnchanged(cfg, st2, s);
    RelayedFrom(cfg, st, st2, s, m);
  }

  lemma RelayedFrom(cfg: Config, st: State, st': State, s: bytes, m: Msg)
    requires st'.outbox == st.outbox && st'.ticks == st.ticks
    ensures Relayed(cfg, st', s, m) == Relayed(cfg, st, s, m)
  {}

  lemma HandleIgnoresWindow(cfg: Config, st: State, st': State, m: Msg)
    requires st' == st.(window := st'.window)
    ensures Handle(cfg, st', m) == (Handle(cfg, st, m).0.(window := st'.window), Handle(cfg, st, m).1)
    ensures Handle(cfg, st, m).0.outbox == st.outbox && Handle(cfg, st, m).0.ticks == st.ticks
  {
    hide HandleChunked;
  }

  /**
   * A new private message goes out unchanged exactly if it is not for this node's content key and its decryption
   * returns no error; else it stays here.
   */
  lemma PrivateMessageIsConsumedOrRelayed(cfg: Config, st: State, s: bytes)
    requires cfg.settings == DEFAULT && cfg.patches == [] && NewMessage(cfg, st, s) && !Open(s).msg.isChan
    ensures var (st', r) := Route(cfg, st, s);
      var m := Open(s).msg;
      var d := cfg.decrypt(cfg.contentKey, m.content);
      && (r.Routed? <==> !Undecryptable(cfg, m) && !ShortFragment(cfg, m))
      && st'.outbox == (if !d.failed && !d.tagOK then Relayed(cfg, st, s, m) else st.outbox)
      && st'.rx == Handle(cfg, st, m).0.rx
  {
    var m := Open(s).msg;
    var st1 := st.(window := RecentBuffer.After(st.window, cfg.crc(Open(s).nonce)));
    HandleIgnoresWindow(cfg, st, st1, m);
    HandleReads(cfg, st1, m);
    hide Open, Handle, EnqueueAll, Redirect, Relayed, RecentBuffer.After;
    var st2 := Handle(cfg, st1, m).0;
    RelaysUnchanged(cfg, st2, s);
    RelayedFrom(cfg, st, st2, s, m);
  }

  /** Trying profiles reads a private message exactly if one is enabled, under the name of an enabled one. */
  lemma {:induction false} ProfilesConsumeIff(cfg: Config, st: State, profiles: seq<Profile>, m: Msg)
    requires !m.isChan
    ensures var (st', r, m') := TryProfiles(cfg, st, profiles, m);
      && r == (if SomeEnabled(profiles) then Reading(cfg, cfg.contentKey, m) else Took(false))
      && m'.content == m.content && !m'.isChan
      && (SomeEnabled(profiles) ==>
            exists i :: 0 <= i < |profiles| && profiles[i].enabled && m'.name == profiles[i].name)
    decreases |profiles|
  {
    hide Handle, Reading;
    ProfilesRead(cfg, st, profiles, m);
    if profiles == [] {
    } else if !profiles[0].enabled {
      ProfilesConsumeIff(cfg, st, profiles[1..], m);
      assert forall i | 0 < i < |profiles| :: profiles[i] == profiles[1..][i - 1];
    } else {
      var m' := m.(name := profiles[0].name);
      ProfilesConsumeIff(cfg, Handle(cfg, st, m').0, profiles[1..], m');
      assert forall i | 0 < i < |profiles| :: profiles[i] == profiles[1..][i - 1];
      if !SomeEnabled(profiles[1..]) {
        NoneEnabled(cfg, Handle(cfg, st, m').0, profiles[1..], m');
      }
    }
  }

  lemma {:induction false} NoneEnabled(cfg: Config, st: State, profiles: seq<Profile>, m: Msg)
    requires !SomeEnabled(profiles)
    ensures TryProfiles(cfg, st, profiles, m) == (st, Took(false), m)
    decreases |profiles|
  {
    hide Handle;
    if profiles == [] {
    } else {
      assert forall i | 0 < i < |profiles| :: profiles[i] == profiles[1..][i - 1];
      NoneEnabled(cfg, st, profiles[1..], m);
    }
  }

  /** Under the profiles' rule a message goes on exactly unless a profile is enabled and reads it or fails to. */
  lemma ProfileMessageForwardedIff(cfg: Config, st: State, m: Msg)
    requires !cfg.settings.checkContent && cfg.settings.checkProfiles && !cfg.settings.forwardConsumedProfiles
    requires cfg.settings.forwardUnknownContent || cfg.settings.forwardUnknownProfiles
    requires !m.isChan && forall p | p in cfg.patches :: p.to != []
    ensures RoutePrivate(cfg, st, m).0.outbox == st.outbox <==>
      SomeEnabled(cfg.profiles) && Reading(cfg, cfg.contentKey, m) != Took(false)
  {
    hide TryProfiles, Redirect, EnqueueAll, SomeEnabled, Reading;
    ProfilesRead(cfg, st, cfg.profiles, m);
    var (st', r, m') := TryProfiles(cfg, st, cfg.profiles, m);
    RedirectNotEmpty(cfg.patches, m');
    EnqueueAllEffect(cfg, st', Redirect(cfg.patches, m'));
  }

  lemma {:induction false} RedirectNotEmpty(patches: seq<Patch>, m: Msg)
    requires forall p | p in patches :: p.to != []
    ensures Redirect(patches, m) != []
  {
    if patches == [] {
    } else {
      assert patches[0] in patches;
      RedirectNotEmpty(patches[1..], m);
    }
  }

  // Whole messages

  /** What the application reads of a message sent whole: a private one comes under the name "[content]". */
  function Received(m: Msg): Msg {
    Msg(if m.isChan then m.name else [0x5b, 0x63, 0x6f, 0x6e, 0x74, 0x65, 0x6e, 0x74, 0x5d], m.content, m.isChan, false,
        m.streamHeader)
  }

  /** The cipher text is one that a key the node tries turns back into the content of m. */
  ghost predicate Deciphered(cfg: Config, m: Msg, cipher: bytes) {
    && !m.chunked && |cipher| >= NONCE_SIZE && (m.isChan ==> |m.name| <= MAX_NAME)
    && TriedKey(cfg, m).Some? && cfg.decrypt(TriedKey(cfg, m).value, cipher) == Decryption(true, m.content, false)
  }

  /** A new message is offered to Out once for each check of the router that reads it, and otherwise keeps rx. */
  lemma WholeMessageOut(cfg: Config, st: State, m: Msg, cipher: bytes)
    requires Deciphered(cfg, m, cipher)
    ensures var st' := Route(cfg, st, Seal(Encrypted(m, cipher))).0;
      st'.rx == if cfg.crc(cipher[..NONCE_SIZE]) in st.window then st.rx
                else st.rx.(out := Offered(st.rx.out, Received(m), Readings(cfg, m)))
  {
    hide Seal, Open, Route, SomeEnabled;
    OpenSeal(Encrypted(m, cipher));
    RouteKeeps(cfg, st, Seal(Encrypted(m, cipher)));
  }

  /**
   * A new message comes out exactly once exactly if Out has room for one only, or has more and the message is one for
   * a channel or just one of the two checks for private messages, of the content key and of the profiles, is on.
   */
  lemma WholeMessageOnceIff(cfg: Config, st: State, m: Msg, cipher: bytes)
    requires Deciphered(cfg, m, cipher) && cfg.crc(cipher[..NONCE_SIZE]) !in st.window
    ensures Route(cfg, st, Seal(Encrypted(m, cipher))).0.rx.out == st.rx.out + [Received(m)] <==>
      || |st.rx.out| + 1 == 128
      || (|st.rx.out| + 1 < 128
          && (m.isChan || (cfg.settings.checkContent <==> !(cfg.settings.checkProfiles && SomeEnabled(cfg.profiles)))))
  {
    hide Seal, Route, SomeEnabled, Offered;
    WholeMessageOut(cfg, st, m, cipher);
    OfferedTwice(st.rx.out, Received(m));
  }

  lemma OfferedTwice(out: seq<Msg>, m: Msg)
    ensures var once := if |out| < 128 then out + [m] else out;
      && Offered(out, m, 1) == once
      && Offered(out, m, 2) == if |once| < 128 then once + [m] else once
  {
    var once := if |out| < 128 then out + [m] else out;
    var twice := if |once| < 128 then once + [m] else once;
    assert Offered(out, m, 1) == Offered(once, m, 0);
    assert Offered(out, m, 2) == Offered(once, m, 1) == Offered(twice, m, 0);
  }

  /** With both checks on, a private message comes out twice. */
  lemma WholeMessageTwice() returns (cfg: Config, st: State, s: bytes)
    ensures cfg.settings == DEFAULT.(checkProfiles := true) && SomeEnabled(cfg.profiles)
    ensures var out := Route(cfg, st, s).0.rx.out; |out| == 2 && out[0] == out[1] && st.rx.out == []
  {
    cfg := Config(map[], [], [], [Profile([], true)], [], DEFAULT.(checkProfiles := true), [],
                  (key, clear, n) => Some(clear), (key, cipher) => Decryption(true, cipher, false), s => 0,
                  n => n, n => None);
    st := State([], [], Rx(map[], map[], []), 0);
    var m := Msg([], seq(NONCE_SIZE, _ => 0), false, false, false);
    s := Seal(Encrypted(m, m.content));
    assert cfg.profiles[0].enabled;
    WholeMessageOut(cfg, st, m, m.content);
    OfferedTwice([], Received(m));
  }

  /**
   * So under the default rule, and any that does not check profiles, a new message sent whole to a key of the
   * receiver comes out in the clear, once, if Out has room.
   */
  lemma WholeMessageDelivered(cfg: Config, st: State, m: Msg, cipher: bytes)
    requires !m.chunked && |cipher| >= NONCE_SIZE
    requires if m.isChan then |m.name| <= MAX_NAME && m.name in cfg.channels && cfg.settings.checkChannels
             else cfg.settings.checkContent && !cfg.settings.checkProfiles
    requires cfg.decrypt(if m.isChan then cfg.channels[m.name] else cfg.contentKey, cipher)
             == Decryption(true, m.content, false)
    ensures var st' := Route(cfg, st, Seal(Encrypted(m, cipher))).0;
      st'.rx == if cfg.crc(cipher[..NONCE_SIZE]) in st.window || |st.rx.out| >= 128 then st.rx
                else st.rx.(out := st.rx.out + [Received(m)])
  {
    hide Seal, Route, SomeEnabled;
    WholeMessageOut(cfg, st, m, cipher);
    OfferedTwice(st.rx.out, Received(m));
  }
}
