/** Remote calls, their responses and message bundles as byte strings, and streams of frames. */
module Remote {
  import opened Bytes
  import opened Varint
  import opened Codec
  import opened CodecProofs
  import opened Wire

  datatype RemoteCall = RemoteCall(action: byte, args: seq<Value>)

  datatype RemoteResponse = RemoteResponse(error: bytes, value: Value)

  function CallBytes(call: RemoteCall): bytes {
    [call.action] + Encode(Array(call.args))
  }

  function ArgsFromBytes(s: bytes): Result<seq<Value>> {
    var p := Decode(s);
    if p.Failed? then Failure(p.error)
    else if p.value.Nil? then Success([])
    else if p.value.Array? then Success(p.value.elements)
    else Failure(WrongType)
  }

  function CallFromBytes(s: bytes): Result<RemoteCall> {
    if |s| < 2 then Failure(InputTooShort)
    else
      var args :- ArgsFromBytes(s[1..]);
      Success(RemoteCall(s[0], args))
  }

  function ResponseBytes(resp: RemoteResponse): bytes {
    Encode(Str(resp.error)) + Encode(resp.value)
  }

  function ResponseFromBytes(s: bytes): Result<RemoteResponse> {
    var e := Decode(s);
    if e.Failed? then Failure(e.error)
    else if !e.value.Str? then Failure(WrongType)
    else
      var v := Decode(e.rest);
      if v.Failed? then Failure(v.error) else Success(RemoteResponse(e.value.text, v.value))
  }

  function BytesBytesToBytes(bs: seq<bytes>): bytes {
    Encode(Blobs(bs))
  }

  function BytesBytesFromBytes(s: bytes): Result<seq<bytes>> {
    var p := Decode(s);
    if p.Failed? then Failure(p.error)
    else if !p.value.Blobs? then Failure(WrongType)
    else Success(p.value.blobs)
  }

  lemma CallRoundTrip(call: RemoteCall)
    requires Sendable(Array(call.args))
    ensures CallFromBytes(CallBytes(call)) == Success(call)
  {
    hide Encode, Decode;
    RoundTrip(Array(call.args), []);
    assert CallBytes(call)[1..] == Encode(Array(call.args)) + [];
  }

  lemma ResponseRoundTrip(resp: RemoteResponse)
    requires Sendable(Str(resp.error)) && Sendable(resp.value)
    ensures ResponseFromBytes(ResponseBytes(resp)) == Success(resp)
  {
    hide Encode, Decode;
    RoundTrip(Str(resp.error), Encode(resp.value));
    RoundTrip(resp.value, []);
    assert Encode(resp.value) + [] == Encode(resp.value);
  }

  lemma BytesBytesRoundTrip(bs: seq<bytes>)
    requires Sendable(Blobs(bs))
    ensures BytesBytesFromBytes(BytesBytesToBytes(bs)) == Success(bs)
  {
    hide Encode, Decode;
    RoundTrip(Blobs(bs), []);
    assert Encode(Blobs(bs)) + [] == Encode(Blobs(bs));
  }

  function CallFrames(calls: seq<RemoteCall>): seq<bytes> {
    seq(|calls|, i requires 0 <= i < |calls| => CallBytes(calls[i]))
  }

  /**
   * Any number of calls framed onto one stream: that many frames are read back, whatever follows them stays
   * unread, and each frame gives its call.
   */
  lemma CallStream(calls: seq<RemoteCall>, s: bytes)
    requires forall c | c in calls :: Sendable(Array(c.args))
    ensures ReadLVs(|calls|, EncodeLVs(CallFrames(calls)) + s) == Parsed(CallFrames(calls), s)
    ensures forall i | 0 <= i < |calls| :: CallFromBytes(CallFrames(calls)[i]) == Success(calls[i])
  {
    hide EncodeLVs, ReadLVs, CallFromBytes, Encode;
    var frames := CallFrames(calls);
    forall f | f in frames ensures |f| < TWO_64 {
      var i :| 0 <= i < |frames| && f == frames[i];
      assert calls[i] in calls;
    }
    LVsRoundTrip(frames, s);
    forall i | 0 <= i < |calls| ensures CallFromBytes(frames[i]) == Success(calls[i]) {
      assert calls[i] in calls;
      CallRoundTrip(calls[i]);
    }
  }

  /** Any value behind an action: an array is the arguments, nil is none, anything else fails the type assertion. */
  lemma CallOfAnyValue(action: byte, v: Value, s: bytes)
    requires Sendable(v)
    ensures CallFromBytes([action] + Encode(v) + s) ==
      match v
      case Array(args) => Success(RemoteCall(action, args))
      case Nil => Success(RemoteCall(action, []))
      case _ => Failure(WrongType)
    ensures CallFromBytes([]) == Failure(InputTooShort) && CallFromBytes([action]) == Failure(InputTooShort)
  {
    hide Encode, Decode;
    RoundTrip(v, s);
    assert ([action] + Encode(v) + s)[1..] == Encode(v) + s;
  }

  /** A response begins with a string, whatever follows; a batch is an array of byte strings. */
  lemma OtherValuesFail(v: Value, w: Value, s: bytes)
    requires Sendable(v) && Sendable(w)
    ensures ResponseFromBytes(Encode(v) + (Encode(w) + s))
            == if v.Str? then Success(RemoteResponse(v.text, w)) else Failure(WrongType)
    ensures BytesBytesFromBytes(Encode(v) + s) == if v.Blobs? then Success(v.blobs) else Failure(WrongType)
  {
    hide Encode, Decode;
    RoundTrip(v, Encode(w) + s);
    RoundTrip(w, s);
    RoundTrip(v, s);
  }

  // What was cut off is refused

  lemma CutCallRefused(call: RemoteCall, k: nat)
    requires Sendable(Array(call.args)) && k < |CallBytes(call)|
    ensures CallFromBytes(CallBytes(call)[..k]).Failure?
  {
    hide Encode, Decode;
    var args := Encode(Array(call.args));
    if k >= 2 {
      assert CallBytes(call)[..k][1..] == args[..k - 1];
      CutRefused(Array(call.args), k - 1);
    }
  }

  lemma CutResponseRefused(resp: RemoteResponse, k: nat)
    requires Sendable(Str(resp.error)) && Sendable(resp.value) && k < |ResponseBytes(resp)|
    ensures ResponseFromBytes(ResponseBytes(resp)[..k]).Failure?
  {
    hide Encode, Decode;
    var e, v := Encode(Str(resp.error)), Encode(resp.value);
    if k < |e| {
      assert ResponseBytes(resp)[..k] == e[..k];
      CutRefused(Str(resp.error), k);
    } else {
      assert ResponseBytes(resp)[..k] == e + v[..k - |e|];
      RoundTrip(Str(resp.error), v[..k - |e|]);
      CutRefused(resp.value, k - |e|);
    }
  }

  lemma CutBatchRefused(bs: seq<bytes>, k: nat)
    requires Sendable(Blobs(bs)) && k < |BytesBytesToBytes(bs)|
    ensures BytesBytesFromBytes(BytesBytesToBytes(bs)[..k]).Failure?
  {
    hide Encode, Decode;
    CutRefused(Blobs(bs), k);
  }
}
