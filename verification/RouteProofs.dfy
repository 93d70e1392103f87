/** When routing fails or panics, what it leaves of the node's state, and what it puts into the queue. */
module RouteProofs {
  import opened Bytes
  import opened OutboxSpec
  import opened Envelope
  import opened Reassembly
  import opened NodeSpec
  import RecentBuffer

  /** The loop-detection hash of a message, if it parses. */
  function HashOf(crc: bytes -> uint32, s: bytes): Option<uint32> {
    var o := Open(s);
    if o.Opened? then Some(crc(o.nonce)) else None
  }

  // When the header parse panics

  function NameLength(s: bytes): nat
    requires |s| >= 3
  {
    s[1] as nat * 256 + s[2] as nat
  }

  /** Too short for the header, or long enough for the guard on 16 content bytes but not for a nonce of 32. */
  predicate OpenPanics(s: bytes) {
    || s == []
    || (!FlagSet(s[0], CHANNEL_FLAG) && 18 <= |s| <= 32)
    || (FlagSet(s[0], CHANNEL_FLAG)
        && (|s| < 3
            || NameLength(s) > MAX_NAME
            || 3 + NameLength(s) > |s|
            || 3 + NameLength(s) + 17 <= |s| < 3 + NameLength(s) + NONCE_SIZE))
  }

  lemma OpenCrashIff(s: bytes)
    ensures Open(s).Crash? <==> OpenPanics(s)
  {
    hide FlagSet;
    if s != [] && FlagSet(s[0], CHANNEL_FLAG) && |s| >= 3 {
      var n := NameLength(s);
      assert n <= MAX_NAME ==> (3 + n) % TWO_16 == 3 + n;
      assert n > MAX_NAME ==> (3 + n) % TWO_16 < 3;
    }
  }

  /** Twenty zero bytes pass the filter of Dropoff and the guard of Route, and make the router panic. */
  lemma ShortMessagePanics(cfg: Config, st: State)
    ensures var s := seq(20, _ => 0 as byte);
      Routable([s]) == [s] && RouteAll(cfg, st, Routable([s])).1.DropoffCrashed?
  {
    var s := seq(20, _ => 0 as byte);
    OpenCrashIff(s);
    assert [s][1..] == [];
    assert Routable([s]) == [s] + Routable([]);
  }

  // What handling returns

  /** How a message decrypts under a key, as Handle sees it. */
  function Reading(cfg: Config, key: bytes, m: Msg): HandleResult {
    var d := cfg.decrypt(key, m.content);
    if d.failed then HandleFailed
    else if !d.tagOK then Took(false)
    else if m.chunked && |d.clear| < 8 then HandleCrashed
    else Took(true)
  }

  /** The key with which the node tries to read a message, if it tries at all. */
  function TriedKey(cfg: Config, m: Msg): Option<bytes> {
    if m.isChan then
      if cfg.settings.checkChannels && m.name in cfg.channels then Some(cfg.channels[m.name]) else None
    else if cfg.settings.checkContent || (cfg.settings.checkProfiles && SomeEnabled(cfg.profiles)) then
      Some(cfg.contentKey)
    else None
  }

  predicate SomeEnabled(profiles: seq<Profile>) {
    exists i :: 0 <= i < |profiles| && profiles[i].enabled
  }

  /** A fragment for this node whose clear text is too short to hold its two numbers. */
  predicate ShortFragment(cfg: Config, m: Msg) {
    TriedKey(cfg, m).Some? && Reading(cfg, TriedKey(cfg, m).value, m).HandleCrashed?
  }

  /** A message whose decryption returns an error. */
  predicate Undecryptable(cfg: Config, m: Msg) {
    TriedKey(cfg, m).Some? && Reading(cfg, TriedKey(cfg, m).value, m).HandleFailed?
  }

  ghost predicate Untouched(st: State, st': State) {
    st'.window == st.window && st'.outbox == st.outbox && st'.ticks == st.ticks
  }

  lemma HandleReads(cfg: Config, st: State, m: Msg)
    requires m.isChan ==> m.name in cfg.channels
    ensures Handle(cfg, st, m).1 == Reading(cfg, if m.isChan then cfg.channels[m.name] else cfg.contentKey, m)
    ensures Untouched(st, Handle(cfg, st, m).0)
  {
    hide Word;
  }

  lemma {:induction false} ProfilesRead(cfg: Config, st: State, profiles: seq<Profile>, m: Msg)
    requires !m.isChan
    ensures var (st', r, m') := TryProfiles(cfg, st, profiles, m);
      && r == (if SomeEnabled(profiles) then Reading(cfg, cfg.contentKey, m) else Took(false))
      && Untouched(st, st') && m'.(name := []) == m.(name := [])
    decreases |profiles|
  {
    hide Handle, SomeEnabled;
    EnabledFirst(profiles);
    if profiles == [] {
    } else if !profiles[0].enabled {
      ProfilesRead(cfg, st, profiles[1..], m);
    } else {
      var m' := m.(name := profiles[0].name);
      HandleReads(cfg, st, m');
      ProfilesRead(cfg, Handle(cfg, st, m').0, profiles[1..], m');
    }
  }

  lemma EnabledFirst(profiles: seq<Profile>)
    ensures SomeEnabled(profiles) <==> profiles != [] && (profiles[0].enabled || SomeEnabled(profiles[1..]))
  {
    if profiles != [] {
      assert forall i | 0 < i < |profiles| :: profiles[i] == profiles[1..][i - 1];
    }
  }

  // What routing returns

  /** st' is st with one record for each copy of m that Forward is given, or st if it is given none. */
  ghost predicate Forwarded(cfg: Config, st: State, st': State, m: Msg, forward: bool) {
    && st'.window == st.window && st.outbox <= st'.outbox
    && (!forward ==> Untouched(st, st'))
    && (forward ==> var ms := Redirect(cfg.patches, m);
          && |st'.outbox| == |st.outbox| + |ms|
          && forall i | 0 <= i < |ms| :: st'.outbox[|st.outbox| + i].msg == Seal(ms[i]))
  }

  lemma {:induction false} EnqueueAllEffect(cfg: Config, st: State, ms: seq<Msg>)
    ensures var st' := EnqueueAll(cfg, st, ms);
      && st'.window == st.window && st'.rx == st.rx && st.outbox <= st'.outbox
      && |st'.outbox| == |st.outbox| + |ms|
      && forall i | 0 <= i < |ms| :: st'.outbox[|st.outbox| + i].msg == Seal(ms[i])
    decreases |ms|
  {
    hide Seal;
    if ms == [] {
    } else {
      EnqueueAllEffect(cfg, Enqueue(cfg, st, ms[0]), ms[1..]);
    }
  }

  lemma ForwardEffect(cfg: Config, st: State, st': State, m: Msg, forward: bool)
    requires Untouched(st, st')
    ensures Forwarded(cfg, st, ForwardIf(cfg, st', m, forward).0, m, forward)
  {
    hide Redirect, Seal, EnqueueAll;
    EnqueueAllEffect(cfg, st', Redirect(cfg.patches, m));
  }

  /** What RouteFresh returns is decided by how the message reads; the queue gets copies of it or nothing. */
  lemma RouteFreshEffect(cfg: Config, st: State, m: Msg)
    ensures var (st', r) := RouteFresh(cfg, st, m);
      && r == (if ShortFragment(cfg, m) then RouteCrashed else if Undecryptable(cfg, m) then RouteFailed else Routed)
      && exists m': Msg, forward: bool ::
           && m'.(name := []) == m.(name := []) && (m.isChan ==> m' == m) && (forward ==> r.Routed?)
           && Forwarded(cfg, st, st', m', forward)
  {
    hide Handle, Reading, Forwarded, SomeEnabled, ForwardPrivate;
    var (st', r) := RouteFresh(cfg, st, m);
    if m.isChan { RouteChannelEffect(cfg, st, m); } else { RoutePrivateEffect(cfg, st, m); }
  }

  lemma RouteChannelEffect(cfg: Config, st: State, m: Msg)
    requires m.isChan
    ensures var (st', r) := RouteChannel(cfg, st, m);
      && r == (if ShortFragment(cfg, m) then RouteCrashed else if Undecryptable(cfg, m) then RouteFailed else Routed)
      && exists forward: bool :: (forward ==> r.Routed?) && Forwarded(cfg, st, st', m, forward)
  {
    hide Handle, ForwardIf, Reading, Forwarded;
    var s := cfg.settings;
    var tried := s.checkChannels && m.name in cfg.channels;
    if tried { HandleReads(cfg, st, m); }
    var (st1, h) := if tried then Handle(cfg, st, m) else (st, Took(false));
    var forward := h.Took? && if h.consumed then s.forwardConsumedChannels else s.forwardUnknownChannels;
    ForwardEffect(cfg, st, st1, m, forward);
    ForwardsNothing(cfg, st1, m);
    ForwardIfRoutes(cfg, st1, m, forward);
    assert Forwarded(cfg, st, RouteChannel(cfg, st, m).0, m, forward);
  }

  lemma ForwardsNothing(cfg: Config, st: State, m: Msg)
    ensures ForwardIf(cfg, st, m, false).0 == st
  {}

  lemma ForwardIfRoutes(cfg: Config, st: State, m: Msg, forward: bool)
    ensures ForwardIf(cfg, st, m, forward).1 == Routed
  {}

  lemma RoutePrivateEffect(cfg: Config, st: State, m: Msg)
    requires !m.isChan
    ensures var (st', r) := RoutePrivate(cfg, st, m);
      && r == (if ShortFragment(cfg, m) then RouteCrashed else if Undecryptable(cfg, m) then RouteFailed else Routed)
      && exists m': Msg, forward: bool ::
           m'.(name := []) == m.(name := []) && (forward ==> r.Routed?) && Forwarded(cfg, st, st', m', forward)
  {
    hide Handle, TryProfiles, ForwardIf, Reading, Forwarded, SomeEnabled, ForwardPrivate;
    var s := cfg.settings;
    HandleReads(cfg, st, m);
    var (st1, r1) := if s.checkContent then Handle(cfg, st, m) else (st, Took(false));
    ProfilesRead(cfg, st1, cfg.profiles, m);
    var (st2, r2, m2) := if s.checkProfiles then TryProfiles(cfg, st1, cfg.profiles, m) else (st1, Took(false), m);
    if r1.Took? {
      var forward := r2.Took? && ForwardPrivate(s, r1.consumed, r2.consumed);
      ForwardEffect(cfg, st, st2, m2, forward);
      ForwardsNothing(cfg, st2, m2);
      ForwardIfRoutes(cfg, st2, m2, forward);
      assert Forwarded(cfg, st, RoutePrivate(cfg, st, m).0, m2, forward);
    } else {
      ForwardEffect(cfg, st, st1, m, false);
      ForwardsNothing(cfg, st1, m);
      assert Forwarded(cfg, st, RoutePrivate(cfg, st, m).0, m, false);
    }
  }

  /** The window after a message has arrived. */
  function Arrived(crc: bytes -> uint32, w: seq<uint32>, s: bytes): seq<uint32> {
    if HashOf(crc, s).Some? then RecentBuffer.After(w, HashOf(crc, s).value) else w
  }

  ghost predicate Fresh(crc: bytes -> uint32, w: seq<uint32>, s: bytes) {
    HashOf(crc, s).Some? && HashOf(crc, s).value !in w
  }

  /** Whether a message makes a node panic, from its bytes, the node's window and its keys. */
  ghost predicate Panics(cfg: Config, w: seq<uint32>, s: bytes) {
    OpenPanics(s) || (Fresh(cfg.crc, w, s) && ShortFragment(cfg, Open(s).msg))
  }

  /** Whether routing a message returns an error. */
  ghost predicate Errs(cfg: Config, w: seq<uint32>, s: bytes) {
    Open(s).Malformed? || (Fresh(cfg.crc, w, s) && Undecryptable(cfg, Open(s).msg))
  }

  lemma SeenAgain(w: seq<uint32>, h: uint32)
    ensures h in w ==> RecentBuffer.After(w, h) == w
  {}

  /** Route panics exactly on the messages of Panics, returns an error exactly on those of Errs. */
  lemma RouteOutcomeIff(cfg: Config, st: State, s: bytes)
    ensures var (st', r) := Route(cfg, st, s);
      && (r.RouteCrashed? <==> Panics(cfg, st.window, s))
      && (r.RouteFailed? <==> Errs(cfg, st.window, s))
      && st'.window == Arrived(cfg.crc, st.window, s)
  {
    hide Open, OpenPanics, RouteFresh, ShortFragment, Undecryptable, RecentBuffer.After, Forwarded;
    OpenCrashIff(s);
    var o := Open(s);
    if o.Opened? {
      var h := cfg.crc(o.nonce);
      SeenAgain(st.window, h);
      FreshOutcome(cfg, st.(window := RecentBuffer.After(st.window, h)), o.msg);
    }
  }

  lemma FreshOutcome(cfg: Config, st: State, m: Msg)
    ensures var (st', r) := RouteFresh(cfg, st, m);
      && (r.RouteCrashed? <==> ShortFragment(cfg, m)) && (r.RouteFailed? <==> Undecryptable(cfg, m))
      && st'.window == st.window
  {
    hide RouteFresh, Reading, TriedKey, Redirect, Seal;
    RouteFreshEffect(cfg, st, m);
  }

  /** Every record that routing queues is one hop from the message that was routed. */
  lemma RouteHops(cfg: Config, st: State, s: bytes, i: nat)
    requires |st.outbox| <= i < |Route(cfg, st, s).0.outbox|
    ensures st.outbox <= Route(cfg, st, s).0.outbox
    ensures Fresh(cfg.crc, st.window, s) && Hop(cfg.patches, s, Route(cfg, st, s).0.outbox[i].msg)
  {
    hide Open, RouteFresh, ShortFragment, Undecryptable, RecentBuffer.After, Redirect, Seal;
    var m := Open(s).msg;
    var st1 := st.(window := RecentBuffer.After(st.window, cfg.crc(Open(s).nonce)));
    RouteFreshEffect(cfg, st1, m);
    var (st', r) := RouteFresh(cfg, st1, m);
    var m': Msg, forward: bool :|
      && m'.(name := []) == m.(name := []) && (m.isChan ==> m' == m) && (forward ==> r.Routed?)
      && Forwarded(cfg, st1, st', m', forward);
    var x := Redirect(cfg.patches, m')[i - |st.outbox|];
    assert st'.outbox[|st.outbox| + (i - |st.outbox|)].msg == Seal(x);
    assert x in Redirect(cfg.patches, m');
  }

  /** Routing only ever adds to the queue. */
  lemma RouteKeepsQueue(cfg: Config, st: State, s: bytes)
    ensures st.outbox <= Route(cfg, st, s).0.outbox
    ensures !Fresh(cfg.crc, st.window, s) ==> Route(cfg, st, s).0 == st
  {
    hide RouteFresh, ShortFragment, Undecryptable, RecentBuffer.After, Redirect, Seal;
    var o := Open(s);
    if o.Opened? && cfg.crc(o.nonce) !in st.window {
      RouteFreshEffect(cfg, st.(window := RecentBuffer.After(st.window, cfg.crc(o.nonce))), o.msg);
    }
  }

  lemma RouteFanOut(cfg: Config, st: State, s: bytes)
    requires ShortNames(cfg.patches)
    ensures |Route(cfg, st, s).0.outbox| <= |st.outbox| + FanOut(cfg.patches)
  {
    hide Open, RouteFresh, ShortFragment, Undecryptable, RecentBuffer.After, Redirect, Seal, FanOut, ShortNames;
    var o := Open(s);
    if o.Opened? && cfg.crc(o.nonce) !in st.window {
      var st1 := st.(window := RecentBuffer.After(st.window, cfg.crc(o.nonce)));
      RouteFreshEffect(cfg, st1, o.msg);
      var m': Msg, forward: bool :|
        && m'.(name := []) == o.msg.(name := []) && (o.msg.isChan ==> m' == o.msg)
        && Forwarded(cfg, st1, RouteFresh(cfg, st1, o.msg).0, m', forward);
      if o.msg.isChan { OpenedName(s); }
      RedirectBounds(cfg.patches, m');
    }
  }

  // What routing stores

  /** How often the router hands a message to Handle if the key it tries reads the message. */
  function Readings(cfg: Config, m: Msg): nat {
    if m.isChan then if cfg.settings.checkChannels && m.name in cfg.channels then 1 else 0
    else
      (if cfg.settings.checkContent then 1 else 0)
      + (if cfg.settings.checkProfiles && SomeEnabled(cfg.profiles) then 1 else 0)
  }

  /** A key that the node tries decrypts the message, without error and to enough bytes. */
  predicate ReadHere(cfg: Config, m: Msg) {
    TriedKey(cfg, m).Some? && Reading(cfg, TriedKey(cfg, m).value, m) == Took(true)
  }

  /** The message in the clear, as Handle passes it on. */
  function Cleared(cfg: Config, m: Msg): Msg
    requires TriedKey(cfg, m).Some?
  {
    ClearMsg(m, cfg.decrypt(TriedKey(cfg, m).value, m.content).clear)
  }

  /** Out after m is offered n times; a full channel takes no offer. */
  function Offered(out: seq<Msg>, m: Msg, n: nat): seq<Msg>
    decreases n
  {
    if n == 0 then out else Offered(if |out| < OUT_BUFFER_SIZE then out + [m] else out, m, n - 1)
  }

  /** What is kept of a message in the clear: a fragment in the storage, a whole message on Out. */
  function Keep(rx: Rx, clear: Msg, times: nat): Rx {
    if !clear.chunked then rx.(out := Offered(rx.out, clear, times))
    else if times > 0 && HandleChunked(rx, clear).Some? then HandleChunked(rx, clear).value
    else rx
  }

  function Kept(cfg: Config, rx: Rx, m: Msg): Rx {
    if ReadHere(cfg, m) then Keep(rx, Cleared(cfg, m), Readings(cfg, m)) else rx
  }

  lemma StoreAgain(rx: Rx, m: Msg)
    requires HandleChunked(rx, m).Some?
    ensures var once := HandleChunked(rx, m).value; HandleChunked(once, m) == Some(once)
  {
    hide Word;
    var id, num := Word(m.content[..4]), Word(m.content[4..8]);
    var once := HandleChunked(rx, m).value;
    if m.streamHeader {
      assert once.streams[id := once.streams[id]] == once.streams;
    } else {
      assert once.chunks[id][num := once.chunks[id][num]] == once.chunks[id];
      assert once.chunks[id := once.chunks[id]] == once.chunks;
    }
  }

  /** Storing a fragment again changes nothing, and offers add up. */
  lemma KeepTwice(rx: Rx, clear: Msg, n: nat)
    ensures Keep(Keep(rx, clear, 1), clear, n) == Keep(rx, clear, n + 1)
  {
    if clear.chunked {
      hide HandleChunked;
      if HandleChunked(rx, clear).Some? { StoreAgain(rx, clear); }
    } else {
      var next := if |rx.out| < OUT_BUFFER_SIZE then rx.out + [clear] else rx.out;
      assert Offered(rx.out, clear, 1) == Offered(next, clear, 0);
    }
  }

  lemma HandleKeeps(cfg: Config, st: State, m: Msg)
    requires m.isChan ==> m.name in cfg.channels
    ensures var key := if m.isChan then cfg.channels[m.name] else cfg.contentKey;
      Handle(cfg, st, m).0.rx == if Reading(cfg, key, m) != Took(true) then st.rx
                                 else Keep(st.rx, ClearMsg(m, cfg.decrypt(key, m.content).clear), 1)
  {
    hide Word;
    assert forall c: Msg :: Offered(st.rx.out, c, 1)
                            == Offered(if |st.rx.out| < OUT_BUFFER_SIZE then st.rx.out + [c] else st.rx.out, c, 0);
  }

  lemma {:induction false} ProfilesKeep(cfg: Config, st: State, profiles: seq<Profile>, m: Msg)
    requires !m.isChan
    ensures TryProfiles(cfg, st, profiles, m).0.rx
            == if !SomeEnabled(profiles) || Reading(cfg, cfg.contentKey, m) != Took(true) then st.rx
               else Keep(st.rx, ClearMsg(m, cfg.decrypt(cfg.contentKey, m.content).clear), 1)
    decreases |profiles|
  {
    hide Handle, SomeEnabled, Keep;
    EnabledFirst(profiles);
    if profiles == [] {
    } else if !profiles[0].enabled {
      ProfilesKeep(cfg, st, profiles[1..], m);
    } else {
      var m' := m.(name := profiles[0].name);
      HandleReads(cfg, st, m');
      HandleKeeps(cfg, st, m');
      ProfilesKeep(cfg, Handle(cfg, st, m').0, profiles[1..], m');
    }
  }

  lemma EnqueueAllKeepsRx(cfg: Config, st: State, m: Msg, forward: bool)
    ensures ForwardIf(cfg, st, m, forward).0.rx == st.rx
  {
    hide Redirect, EnqueueAll;
    EnqueueAllEffect(cfg, st, Redirect(cfg.patches, m));
  }

  lemma RouteChannelKeeps(cfg: Config, st: State, m: Msg)
    requires m.isChan
    ensures RouteChannel(cfg, st, m).0.rx == Kept(cfg, st.rx, m)
  {
    hide Handle, ForwardIf, Keep, Reading;
    var s := cfg.settings;
    KeepNothing(st.rx, m);
    if s.checkChannels && m.name in cfg.channels {
      HandleReads(cfg, st, m);
      HandleKeeps(cfg, st, m);
    }
    var (st1, h) := if s.checkChannels && m.name in cfg.channels then Handle(cfg, st, m) else (st, Took(false));
    var forward := h.Took? && if h.consumed then s.forwardConsumedChannels else s.forwardUnknownChannels;
    EnqueueAllKeepsRx(cfg, st1, m, forward);
  }

  lemma KeepNothing(rx: Rx, clear: Msg)
    ensures Keep(rx, clear, 0) == rx
  {}

  lemma RoutePrivateKeeps(cfg: Config, st: State, m: Msg)
    requires !m.isChan
    ensures RoutePrivate(cfg, st, m).0.rx == Kept(cfg, st.rx, m)
  {
    hide Handle, TryProfiles, ForwardIf, Keep, SomeEnabled, ForwardPrivate, Reading;
    var s := cfg.settings;
    HandleReads(cfg, st, m);
    HandleKeeps(cfg, st, m);
    var (st1, r1) := if s.checkContent then Handle(cfg, st, m) else (st, Took(false));
    ProfilesRead(cfg, st1, cfg.profiles, m);
    ProfilesKeep(cfg, st1, cfg.profiles, m);
    var (st2, r2, m2) := if s.checkProfiles then TryProfiles(cfg, st1, cfg.profiles, m) else (st1, Took(false), m);
    KeepTwice(st.rx, ClearMsg(m, cfg.decrypt(cfg.contentKey, m.content).clear), 1);
    if r1.Took? && r2.Took? { EnqueueAllKeepsRx(cfg, st2, m2, ForwardPrivate(s, r1.consumed, r2.consumed)); }
  }

  /** The storage and Out after routing any bytes: new messages are kept as their key reads them, others are not. */
  lemma RouteKeeps(cfg: Config, st: State, s: bytes)
    ensures Route(cfg, st, s).0.rx
            == if Fresh(cfg.crc, st.window, s) then Kept(cfg, st.rx, Open(s).msg) else st.rx
  {
    hide Open, RouteChannel, RoutePrivate, Kept, RecentBuffer.After;
    var o := Open(s);
    if o.Opened? {
      var st1 := st.(window := RecentBuffer.After(st.window, cfg.crc(o.nonce)));
      if o.msg.isChan { RouteChannelKeeps(cfg, st1, o.msg); } else { RoutePrivateKeeps(cfg, st1, o.msg); }
    }
  }

  // What routing queues

  /** One record for each of ms: on its channel if it has one, sealed, at its own tick. */
  function Records(cfg: Config, ms: seq<Msg>, tick: nat): (rs: seq<OutboxMsg>)
    ensures |rs| == |ms|
    decreases |ms|
  {
    if ms == [] then []
    else
      var m := ms[0];
      [OutboxMsg(if m.isChan then m.name else [], Seal(m), cfg.clock(tick))] + Records(cfg, ms[1..], tick + 1)
  }

  lemma {:induction false} RecordsAt(cfg: Config, ms: seq<Msg>, tick: nat, i: nat)
    requires i < |ms|
    ensures Records(cfg, ms, tick)[i]
            == OutboxMsg(if ms[i].isChan then ms[i].name else [], Seal(ms[i]), cfg.clock(tick + i))
    decreases i
  {
    hide Seal;
    if i == 0 {
    } else {
      RecordsAt(cfg, ms[1..], tick + 1, i - 1);
    }
  }

  /** The message is to be passed on: as one the node read, or as one it did not. */
  predicate PassesOn(cfg: Config, m: Msg) {
    var s, read := cfg.settings, ReadHere(cfg, m);
    if m.isChan then if read then s.forwardConsumedChannels else s.forwardUnknownChannels
    else
      var content, profile := read && s.checkContent, read && s.checkProfiles && SomeEnabled(cfg.profiles);
      || (!content && !profile && (s.forwardUnknownContent || s.forwardUnknownProfiles))
      || (content && s.forwardConsumedContent)
      || (profile && s.forwardConsumedProfiles)
  }

  function FirstEnabled(profiles: seq<Profile>): bytes {
    if profiles == [] then [] else if profiles[0].enabled then profiles[0].name else FirstEnabled(profiles[1..])
  }

  function LastEnabled(profiles: seq<Profile>): bytes {
    if profiles == [] then []
    else
      var n := |profiles| - 1;
      if profiles[n].enabled then profiles[n].name else LastEnabled(profiles[..n])
  }

  /** The message under which patches see it: a private one has the name of the last profile it was tried for. */
  function Onward(cfg: Config, m: Msg): Msg {
    if m.isChan || !cfg.settings.checkProfiles || !SomeEnabled(cfg.profiles) then m
    else m.(name := if ReadHere(cfg, m) then FirstEnabled(cfg.profiles) else LastEnabled(cfg.profiles))
  }

  lemma {:induction false} EnqueueAllRecords(cfg: Config, st: State, ms: seq<Msg>)
    ensures EnqueueAll(cfg, st, ms)
            == st.(outbox := st.outbox + Records(cfg, ms, st.ticks), ticks := st.ticks + |ms|)
    decreases |ms|
  {
    hide Seal;
    if ms == [] {
    } else {
      var m := ms[0];
      EnqueueAllRecords(cfg, Enqueue(cfg, st, m), ms[1..]);
      Regroup(st.outbox, [OutboxMsg(if m.isChan then m.name else [], Seal(m), cfg.clock(st.ticks))],
              Records(cfg, ms[1..], st.ticks + 1));
    }
  }

  lemma Regroup<T>(a: seq<T>, b: seq<T>, c: seq<T>)
    ensures (a + b) + c == a + (b + c)
  {}

  lemma LastEnabledFirst(profiles: seq<Profile>)
    requires profiles != []
    ensures LastEnabled(profiles)
            == if SomeEnabled(profiles[1..]) || !profiles[0].enabled then LastEnabled(profiles[1..])
               else profiles[0].name
  {
    var n := |profiles| - 1;
    if n == 0 {
      assert profiles[..0] == [] && profiles[1..] == [];
    } else {
      assert profiles[1..][n - 1] == profiles[n] && profiles[1..][..n - 1] == profiles[..n][1..];
      if profiles[n].enabled {
        assert profiles[1..][n - 1].enabled;
      } else {
        LastEnabledFirst(profiles[..n]);
        SomeEnabledBefore(profiles[1..]);
      }
    }
  }

  lemma SomeEnabledBefore(profiles: seq<Profile>)
    requires profiles != [] && !profiles[|profiles| - 1].enabled
    ensures SomeEnabled(profiles) <==> SomeEnabled(profiles[..|profiles| - 1])
  {
    if i :| 0 <= i < |profiles| && profiles[i].enabled { assert profiles[..|profiles| - 1][i].enabled; }
  }

  lemma {:induction false} ProfilesName(cfg: Config, st: State, profiles: seq<Profile>, m: Msg)
    requires !m.isChan
    ensures TryProfiles(cfg, st, profiles, m).2
            == if !SomeEnabled(profiles) then m
               else m.(name := if Reading(cfg, cfg.contentKey, m) == Took(false) then LastEnabled(profiles)
                               else FirstEnabled(profiles))
    decreases |profiles|
  {
    hide Handle, SomeEnabled, LastEnabled;
    EnabledFirst(profiles);
    if profiles == [] {
    } else {
      LastEnabledFirst(profiles);
      if !profiles[0].enabled {
        ProfilesName(cfg, st, profiles[1..], m);
      } else {
        var m' := m.(name := profiles[0].name);
        HandleReads(cfg, st, m');
        ProfilesName(cfg, Handle(cfg, st, m').0, profiles[1..], m');
      }
    }
  }

  lemma ForwardQueues(cfg: Config, st: State, st': State, m: Msg, forward: bool)
    requires Untouched(st, st')
    ensures var st2, ms := ForwardIf(cfg, st', m, forward).0, Redirect(cfg.patches, m);
      if forward then st2.outbox == st.outbox + Records(cfg, ms, st.ticks) && st2.ticks == st.ticks + |ms|
      else st2.outbox == st.outbox && st2.ticks == st.ticks
  {
    hide Redirect, EnqueueAll, Records;
    EnqueueAllRecords(cfg, st', Redirect(cfg.patches, m));
  }

  /** st' has queued a record for each of ms behind what st had. */
  ghost predicate Queues(cfg: Config, st: State, st': State, ms: seq<Msg>) {
    st'.outbox == st.outbox + Records(cfg, ms, st.ticks) && st'.ticks == st.ticks + |ms|
  }

  lemma NoRecords(cfg: Config, st: State, st': State)
    requires st'.outbox == st.outbox && st'.ticks == st.ticks
    ensures Queues(cfg, st, st', [])
  {
    assert Records(cfg, [], st.ticks) == [];
  }

  /** The copies that are queued of a new message. */
  function Copies(cfg: Config, m: Msg): seq<Msg> {
    if !ShortFragment(cfg, m) && !Undecryptable(cfg, m) && PassesOn(cfg, m) then Redirect(cfg.patches, Onward(cfg, m))
    else []
  }

  lemma RouteChannelQueues(cfg: Config, st: State, m: Msg)
    requires m.isChan
    ensures Queues(cfg, st, RouteChannel(cfg, st, m).0, Copies(cfg, m))
  {
    hide Handle, ForwardIf, Reading, Redirect, Records;
    var s := cfg.settings;
    var tried := s.checkChannels && m.name in cfg.channels;
    if tried { HandleReads(cfg, st, m); }
    var (st1, h) := if tried then Handle(cfg, st, m) else (st, Took(false));
    NoRecords(cfg, st, st1);
    var forward := h.Took? && PassesOn(cfg, m);
    ForwardQueues(cfg, st, st1, m, forward);
    if !forward { NoRecords(cfg, st, ForwardIf(cfg, st1, m, forward).0); }
  }

  lemma RoutePrivateQueues(cfg: Config, st: State, m: Msg)
    requires !m.isChan
    ensures Queues(cfg, st, RoutePrivate(cfg, st, m).0, Copies(cfg, m))
  {
    hide Handle, TryProfiles, ForwardIf, Reading, Redirect, Records, SomeEnabled, LastEnabled, FirstEnabled;
    var s := cfg.settings;
    HandleReads(cfg, st, m);
    var (st1, r1) := if s.checkContent then Handle(cfg, st, m) else (st, Took(false));
    ProfilesRead(cfg, st1, cfg.profiles, m);
    ProfilesName(cfg, st1, cfg.profiles, m);
    var (st2, r2, m2) := if s.checkProfiles then TryProfiles(cfg, st1, cfg.profiles, m) else (st1, Took(false), m);
    NoRecords(cfg, st, st1);
    NoRecords(cfg, st, st2);
    if r1.Took? && r2.Took? {
      var forward := ForwardPrivate(s, r1.consumed, r2.consumed);
      ForwardQueues(cfg, st, st2, m2, forward);
      if !forward { NoRecords(cfg, st, ForwardIf(cfg, st2, m2, forward).0); }
    }
  }

  /**
   * What the router queues, for any settings, profiles and patches: of a new message that neither errs nor panics and
   * is to be passed on, one record for each copy that the patches make; of any other message nothing.
   */
  lemma RouteQueues(cfg: Config, st: State, s: bytes)
    ensures Queues(cfg, st, Route(cfg, st, s).0, if Fresh(cfg.crc, st.window, s) then Copies(cfg, Open(s).msg) else [])
  {
    hide Open, RouteChannel, RoutePrivate, Copies, RecentBuffer.After, Records, Queues;
    var o := Open(s);
    NoRecords(cfg, st, st);
    if o.Opened? {
      var st1 := st.(window := RecentBuffer.After(st.window, cfg.crc(o.nonce)));
      if o.msg.isChan { RouteChannelQueues(cfg, st1, o.msg); } else { RoutePrivateQueues(cfg, st1, o.msg); }
      var st2 := RouteFresh(cfg, st1, o.msg).0;
      SameQueue(cfg, st, st1, st2, Copies(cfg, o.msg));
    }
  }

  lemma SameQueue(cfg: Config, st: State, st1: State, st': State, ms: seq<Msg>)
    requires Queues(cfg, st1, st', ms) && st1.outbox == st.outbox && st1.ticks == st.ticks
    ensures Queues(cfg, st, st', ms)
  {}

  /** A message on its way: each stop routes what the one before it queued. */
  ghost predicate RoutedPath(cfgs: seq<Config>, sts: seq<State>, path: seq<bytes>) {
    && |path| == |cfgs| + 1 == |sts| + 1
    && forall k | 0 <= k < |cfgs| :: ShortNames(cfgs[k].patches) && Emits(cfgs[k], sts[k], path[k], path[k + 1])
  }

  ghost predicate Emits(cfg: Config, st: State, s: bytes, s': bytes) {
    exists i :: |st.outbox| <= i < |Route(cfg, st, s).0.outbox| && Route(cfg, st, s).0.outbox[i].msg == s'
  }

  /** Over any number of routers, in any states, content and loop-detection nonce stay what they were. */
  lemma RoutedPathKeepsContent(cfgs: seq<Config>, sts: seq<State>, path: seq<bytes>)
    requires RoutedPath(cfgs, sts, path) && Open(path[0]).Opened?
    ensures var last := path[|cfgs|];
      && Open(last).Opened?
      && Open(last).msg.content == Open(path[0]).msg.content && Open(last).nonce == Open(path[0]).nonce
  {
    hide Open, Hop, Route, ShortNames;
    var routers := seq(|cfgs|, k requires 0 <= k < |cfgs| => cfgs[k].patches);
    forall k | 0 <= k < |routers| ensures ShortNames(routers[k]) && Hop(routers[k], path[k], path[k + 1]) {
      assert Emits(cfgs[k], sts[k], path[k], path[k + 1]);
      var i :| |sts[k].outbox| <= i < |Route(cfgs[k], sts[k], path[k]).0.outbox|
               && Route(cfgs[k], sts[k], path[k]).0.outbox[i].msg == path[k + 1];
      RouteHops(cfgs[k], sts[k], path[k], i);
    }
    PathKeepsContent(routers, path);
  }
}
