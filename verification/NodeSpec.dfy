/** The RAM node as a state machine: sending, routing, handling, picking up and dropping off. */
module NodeSpec {
  import opened Bytes
  import opened OutboxSpec
  import opened Envelope
  import opened Chunking
  import opened Reassembly
  import RecentBuffer
  import Remote

  datatype Profile = Profile(name: bytes, enabled: bool)

  /** What DecryptMessage returns: whether the message is for the key, the clear text, whether there was an error. */
  datatype Decryption = Decryption(tagOK: bool, clear: bytes, failed: bool)

  type StreamId = s: bytes | |s| == 4 witness [0, 0, 0, 0]

  datatype Settings = Settings(
    checkContent: bool, checkChannels: bool, checkProfiles: bool,
    forwardConsumedContent: bool, forwardConsumedChannels: bool, forwardConsumedProfiles: bool,
    forwardUnknownContent: bool, forwardUnknownChannels: bool, forwardUnknownProfiles: bool)

  /**
   * What stays fixed while a node runs, and its surroundings: keys, cipher, checksum, and a clock and a source of
   * random bytes that are asked with a growing number of ticks.
   */
  datatype Config = Config(
    channels: map<bytes, bytes>,  // private keys by channel name
    contentKey: bytes,
    routingKey: bytes,
    profiles: seq<Profile>,
    patches: seq<Patch>,
    settings: Settings,
    limits: seq<int64>,           // the byte limits of the policies' transports
    encrypt: (bytes, bytes, nat) -> Option<bytes>,  // public key, clear text, randomness
    decrypt: (bytes, bytes) -> Decryption,          // private key, cipher text
    crc: bytes -> uint32,
    clock: nat -> int,
    random: nat -> Option<StreamId>)

  datatype State = State(window: seq<uint32>, outbox: seq<OutboxMsg>, rx: Rx, ticks: nat)

  // Forwarding

  function Enqueue(cfg: Config, st: State, m: Msg): State {
    var queued := OutboxMsg(if m.isChan then m.name else [], Seal(m), cfg.clock(st.ticks));
    st.(outbox := st.outbox + [queued], ticks := st.ticks + 1)
  }

  function EnqueueAll(cfg: Config, st: State, ms: seq<Msg>): State
    decreases |ms|
  {
    if ms == [] then st else EnqueueAll(cfg, Enqueue(cfg, st, ms[0]), ms[1..])
  }

  // Handling

  datatype HandleResult = Took(consumed: bool) | HandleFailed | HandleCrashed

  const CONTENT_NAME: bytes := [0x5b, 0x63, 0x6f, 0x6e, 0x74, 0x65, 0x6e, 0x74, 0x5d]  // "[content]"

  function ClearMsg(m: Msg, clear: bytes): Msg {
    m.(name := if m.isChan then m.name else CONTENT_NAME, content := clear)
  }

  function Accept(st: State, m: Msg): (State, HandleResult) {
    if m.chunked then
      match HandleChunked(st.rx, m)
      case None => (st, HandleCrashed)
      case Some(rx) => (st.(rx := rx), Took(true))
    else if |st.rx.out| < OUT_BUFFER_SIZE then
      (st.(rx := st.rx.(out := st.rx.out + [m])), Took(true))
    else
      (st, Took(true))
  }

  function Handle(cfg: Config, st: State, m: Msg): (State, HandleResult) {
    if m.isChan && m.name !in cfg.channels then (st, HandleFailed)
    else
      var d := cfg.decrypt(if m.isChan then cfg.channels[m.name] else cfg.contentKey, m.content);
      if d.failed then (st, HandleFailed)
      else if !d.tagOK then (st, Took(false))
      else Accept(st, ClearMsg(m, d.clear))
  }

  // Routing

  datatype RouteResult = Routed | RouteFailed | RouteCrashed

  function Stopped(r: HandleResult): RouteResult
    requires !r.Took?
  {
    if r.HandleFailed? then RouteFailed else RouteCrashed
  }

  function ForwardIf(cfg: Config, st: State, m: Msg, forward: bool): (State, RouteResult) {
    (if forward then EnqueueAll(cfg, st, Redirect(cfg.patches, m)) else st, Routed)
  }

  function RouteChannel(cfg: Config, st: State, m: Msg): (State, RouteResult) {
    var (st', r) := if cfg.settings.checkChannels && m.name in cfg.channels then Handle(cfg, st, m)
                    else (st, Took(false));
    if !r.Took? then (st', Stopped(r))
    else
      var s := cfg.settings;
      ForwardIf(cfg, st', m, if r.consumed then s.forwardConsumedChannels else s.forwardUnknownChannels)
  }

  /** The loop over the enabled profiles; the message keeps the name of the last profile tried. */
  function TryProfiles(cfg: Config, st: State, profiles: seq<Profile>, m: Msg): (State, HandleResult, Msg) {
    if profiles == [] then (st, Took(false), m)
    else if !profiles[0].enabled then TryProfiles(cfg, st, profiles[1..], m)
    else
      var m' := m.(name := profiles[0].name);
      var (st', r) := Handle(cfg, st, m');
      if r == Took(false) then TryProfiles(cfg, st', profiles[1..], m') else (st', r, m')
  }

  function RoutePrivate(cfg: Config, st: State, m: Msg): (State, RouteResult) {
    var (st1, r1) := if cfg.settings.checkContent then Handle(cfg, st, m) else (st, Took(false));
    if !r1.Took? then (st1, Stopped(r1))
    else
      var (st2, r2, m2) := if cfg.settings.checkProfiles then TryProfiles(cfg, st1, cfg.profiles, m)
                           else (st1, Took(false), m);
      if !r2.Took? then (st2, Stopped(r2))
      else ForwardIf(cfg, st2, m2, ForwardPrivate(cfg.settings, r1.consumed, r2.consumed))
  }

  predicate ForwardPrivate(s: Settings, content: bool, profile: bool) {
    || (!content && !profile && (s.forwardUnknownContent || s.forwardUnknownProfiles))
    || (content && s.forwardConsumedContent)
    || (profile && s.forwardConsumedProfiles)
  }

  function RouteFresh(cfg: Config, st: State, m: Msg): (State, RouteResult) {
    if m.isChan then RouteChannel(cfg, st, m) else RoutePrivate(cfg, st, m)
  }

  /** Route: the header, loop prevention, then handling and forwarding. */
  function Route(cfg: Config, st: State, s: bytes): (State, RouteResult) {
    match Open(s)
    case Malformed => (st, RouteFailed)
    case Crash => (st, RouteCrashed)
    case Opened(m, nonce) =>
      var h := cfg.crc(nonce);
      if h in st.window then (st, Routed)
      else RouteFresh(cfg, st.(window := RecentBuffer.After(st.window, h)), m)
  }

  // Sending

  datatype SendResult = Sent | AlreadyChunked | CryptoFailed | RandomFailed | DivideByZero

  function Encrypted(m: Msg, cipher: bytes): Msg {
    m.(content := cipher)
  }

  /** A message that needs no chunking is encrypted and queued. */
  function SendWhole(cfg: Config, st: State, m: Msg, key: bytes): (State, SendResult) {
    match cfg.encrypt(key, m.content, st.ticks)
    case None => (st, CryptoFailed)
    case Some(cipher) => (Enqueue(cfg, st, Encrypted(m, cipher)), Sent)
  }

  predicate Oversize(cfg: Config, m: Msg) {
    |m.content| > 0 && Low32(|m.content|) > ChunkSizeOf(cfg.limits)
  }

  function SendFragment(cfg: Config, st: State, m: Msg, key: bytes): (State, SendResult) {
    if Oversize(cfg, m) then (st, AlreadyChunked) else SendWhole(cfg, st, m, key)
  }

  function SendFragments(cfg: Config, st: State, ms: seq<Msg>, key: bytes): (State, SendResult)
    decreases |ms|
  {
    if ms == [] then (st, Sent)
    else
      var (st', r) := SendFragment(cfg, st, ms[0], key);
      if r.Sent? then SendFragments(cfg, st', ms[1..], key) else (st', r)
  }

  function SendChunked(cfg: Config, st: State, chunkSize: uint32, m: Msg, key: bytes): (State, SendResult) {
    var c := Low32(chunkSize - CHUNK_HEADER);
    if c == 0 then (st, DivideByZero)
    else if m.content == [] then (st, Sent)
    else
      match cfg.random(st.ticks)
      case None => (st, RandomFailed)
      case Some(id) => SendFragments(cfg, st.(ticks := st.ticks + 1), Fragments(m, id, c), key)
  }

  function SendMsg(cfg: Config, st: State, m: Msg, key: bytes): (State, SendResult) {
    if !Oversize(cfg, m) then SendWhole(cfg, st, m, key)
    else if m.chunked then (st, AlreadyChunked)
    else SendChunked(cfg, st, ChunkSizeOf(cfg.limits), m, key)
  }

  // Pickup and Dropoff

  datatype Bundle = Bundle(data: bytes, time: int)

  /** None is an encryption error. */
  function Pickup(cfg: Config, st: State, rpub: bytes, since: int, limit: int, names: seq<bytes>): Option<Bundle> {
    var page := PageOf(st.outbox, since, limit, names);
    var time := PageTime(page, since);
    if page == [] then Some(Bundle([], time))
    else
      match cfg.encrypt(rpub, Remote.BytesBytesToBytes(Payloads(page)), st.ticks)
      case None => None
      case Some(cipher) => Some(Bundle(cipher, time))
  }

  datatype DropoffResult = Dropped | DropoffFailed | DropoffCrashed

  /** The messages long enough to be routed. */
  function Routable(msgs: seq<bytes>): seq<bytes> {
    if msgs == [] then []
    else if |msgs[0]| < 16 then Routable(msgs[1..])
    else [msgs[0]] + Routable(msgs[1..])
  }

  /** Each message goes to the router, whatever error the ones before it met; only a panic ends the loop. */
  function RouteAll(cfg: Config, st: State, msgs: seq<bytes>): (State, DropoffResult)
    decreases |msgs|
  {
    if msgs == [] then (st, Dropped)
    else
      var (st', r) := Route(cfg, st, msgs[0]);
      if r.RouteCrashed? then (st', DropoffCrashed) else RouteAll(cfg, st', msgs[1..])
  }

  function Dropoff(cfg: Config, st: State, bundle: Bundle): (State, DropoffResult) {
    if |bundle.data| < 1 then (st, DropoffFailed)
    else
      var d := cfg.decrypt(cfg.routingKey, bundle.data);
      if d.failed || !d.tagOK then (st, DropoffFailed)
      else
        var msgs := Remote.BytesBytesFromBytes(d.clear);
        if msgs.Success? then RouteAll(cfg, st, Routable(msgs.value))
        else (st, if msgs.error.WrongType? then DropoffCrashed else DropoffFailed)
  }
}
