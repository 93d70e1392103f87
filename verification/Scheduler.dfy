/** The polling policy's round loop: bounded retries and rotation of peer groups. */
module Scheduler {
  import opened Bytes

  /** An entry of the list of peers to poll. */
  datatype Target = Target(uri: bytes, enabled: bool)

  datatype Policy = Policy(groups: seq<bytes>, retryForever: bool, retryAttempts: int)

  datatype State = State(fails: map<bytes, int>, group: nat, counter: nat)

  const START := State(map[], 0, 0)

  function Count(fails: map<bytes, int>, uri: bytes): int {
    if uri in fails then fails[uri] else 0
  }

  predicate Due(policy: Policy, fails: map<bytes, int>, p: Target) {
    p.enabled && Count(fails, p.uri) < policy.retryAttempts
  }

  /** The counters after one peer's turn; failed says how a poll of it would end. */
  function Turn(policy: Policy, fails: map<bytes, int>, p: Target, failed: bool): map<bytes, int> {
    var n := Count(fails, p.uri);
    fails[p.uri := if !Due(policy, fails, p) then n else if failed then n + 1 else 0]
  }

  /** The counters after the turns of all peers. */
  function Turns(policy: Policy, fails: map<bytes, int>, peers: seq<Target>, errs: seq<bool>): map<bytes, int>
    requires |errs| == |peers|
  {
    if peers == [] then fails
    else
      var n := |peers| - 1;
      Turn(policy, Turns(policy, fails, peers[..n], errs[..n]), peers[n], errs[n])
  }

  /** The polls of a round, in order, with their results. */
  function Polls(policy: Policy, fails: map<bytes, int>, peers: seq<Target>, errs: seq<bool>): seq<(bytes, bool)>
    requires |errs| == |peers|
  {
    if peers == [] then []
    else
      var n := |peers| - 1;
      var before := Polls(policy, fails, peers[..n], errs[..n]);
      if Due(policy, Turns(policy, fails, peers[..n], errs[..n]), peers[n]) then before + [(peers[n].uri, errs[n])]
      else before
  }

  /** Whether a round that polled nobody ends the visit to its group. */
  predicate Leaves(policy: Policy, s: State, peers: seq<Target>, errs: seq<bool>)
    requires |errs| == |peers|
  {
    Polls(policy, s.fails, peers, errs) == [] && (s.group < |policy.groups| - 1 || policy.retryForever)
  }

  function Round(policy: Policy, s: State, peers: seq<Target>, errs: seq<bool>): State
    requires |errs| == |peers|
  {
    if Leaves(policy, s, peers, errs) then
      State(map[], if s.group < |policy.groups| - 1 then s.group + 1 else 0, s.counter + 1)
    else
      State(Turns(policy, s.fails, peers, errs), s.group, s.counter + 1)
  }

  /** Whether the round that starts in s ends with a flush of the outbox. */
  predicate Flushes(s: State) { s.counter % 500 == 0 }

  class Poll {
    const policy: Policy
    var fails: map<bytes, int>
    var curGroupIndex: nat
    var counter: nat

    ghost function Value(): State
      reads this
    {
      State(fails, curGroupIndex, counter)
    }

    constructor (policy: Policy)
      ensures Value() == START && this.policy == policy
    {
      this.policy := policy;
      fails, curGroupIndex, counter := map[], 0, 0;
    }

    /** One round over the group's peers; flush says whether the outbox is to be flushed. */
    method RunRound(peers: seq<Target>, errs: seq<bool>) returns (flush: bool)
      requires |errs| == |peers|
      modifies this
      ensures Value() == Round(policy, old(Value()), peers, errs)
      ensures flush == Flushes(old(Value()))
    {
      hide Due;
      var tries := 0;
      for i := 0 to |peers|
        invariant fails == Turns(policy, old(fails), peers[..i], errs[..i])
        invariant tries == |Polls(policy, old(fails), peers[..i], errs[..i])|
        invariant curGroupIndex == old(curGroupIndex) && counter == old(counter)
      {
        assert peers[..i + 1][..i] == peers[..i] && errs[..i + 1][..i] == errs[..i];
        var element := peers[i];
        DueMeans(policy, fails, element);
        if element.uri !in fails {
          fails := fails[element.uri := 0];
        }
        if element.enabled && fails[element.uri] < policy.retryAttempts {
          tries := tries + 1;
          if errs[i] {
            fails := fails[element.uri := fails[element.uri] + 1];
          } else {
            fails := fails[element.uri := 0];
          }
        }
      }
      assert peers[..|peers|] == peers && errs[..|errs|] == errs;
      if tries == 0 {
        if curGroupIndex < |policy.groups| - 1 {
          fails := map[];
          curGroupIndex := curGroupIndex + 1;
        } else if policy.retryForever {
          fails := map[];
          curGroupIndex := 0;
        }
      }
      flush := counter % 500 == 0;
      counter := counter + 1;
    }
  }

  lemma DueMeans(policy: Policy, fails: map<bytes, int>, p: Target)
    ensures Due(policy, fails, p) <==> p.enabled && Count(fails, p.uri) < policy.retryAttempts
  {}
}
