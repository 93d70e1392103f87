/** Bounds, the condition for leaving a group, and fairness of the round loop. */
module SchedulerProofs {
  import opened Bytes
  import opened Scheduler

  function Max(a: int, b: int): int { if a > b then a else b }

  /** Failure counters stay between 0 and RetryAttempts, and the group index inside the groups. */
  ghost predicate InBounds(policy: Policy, s: State) {
    && s.group < |policy.groups|
    && forall u | u in s.fails :: 0 <= s.fails[u] <= Max(0, policy.retryAttempts)
  }

  ghost predicate Counters(policy: Policy, fails: map<bytes, int>) {
    forall u | u in fails :: 0 <= fails[u] <= Max(0, policy.retryAttempts)
  }

  lemma {:induction false} TurnsInBounds(policy: Policy, fails: map<bytes, int>, peers: seq<Target>, errs: seq<bool>)
    requires |errs| == |peers| && Counters(policy, fails)
    ensures Counters(policy, Turns(policy, fails, peers, errs))
  {
    if peers == [] {
    } else {
      TurnsInBounds(policy, fails, peers[..|peers| - 1], errs[..|peers| - 1]);
    }
  }

  /** The polls made in the rounds of the present visit to a group, oldest first. */
  datatype Visit = Visit(state: State, polls: seq<(bytes, bool)>)

  function VisitRound(policy: Policy, v: Visit, peers: seq<Target>, errs: seq<bool>): Visit
    requires |errs| == |peers|
  {
    Visit(Round(policy, v.state, peers, errs),
          if Leaves(policy, v.state, peers, errs) then [] else v.polls + Polls(policy, v.state.fails, peers, errs))
  }

  /** How many polls of a peer failed since the last one that did not. */
  function Consecutive(polls: seq<(bytes, bool)>, uri: bytes): nat {
    if polls == [] then 0
    else
      var n := |polls| - 1;
      if polls[n].0 != uri then Consecutive(polls[..n], uri)
      else if polls[n].1 then Consecutive(polls[..n], uri) + 1
      else 0
  }

  ghost predicate Explained(fails: map<bytes, int>, polls: seq<(bytes, bool)>) {
    forall u :: Count(fails, u) == Consecutive(polls, u)
  }

  lemma TurnExplained(policy: Policy, fails: map<bytes, int>, p: Target, failed: bool, polls: seq<(bytes, bool)>)
    requires Explained(fails, polls)
    ensures Explained(Turn(policy, fails, p, failed),
                      if Due(policy, fails, p) then polls + [(p.uri, failed)] else polls)
  {
    var polls' := polls + [(p.uri, failed)];
    assert polls'[..|polls|] == polls;
    assert forall u ::
      (Consecutive(polls', u)
       == if u != p.uri then Consecutive(polls, u) else if failed then Consecutive(polls, u) + 1 else 0);
  }

  lemma {:induction false} TurnsExplained(policy: Policy, fails: map<bytes, int>, peers: seq<Target>, errs: seq<bool>,
                                          polls: seq<(bytes, bool)>)
    requires |errs| == |peers| && Explained(fails, polls)
    ensures Explained(Turns(policy, fails, peers, errs), polls + Polls(policy, fails, peers, errs))
  {
    hide Explained, Turn, Due;
    if peers == [] {
      assert polls + [] == polls;
    } else {
      var n := |peers| - 1;
      TurnsExplained(policy, fails, peers[..n], errs[..n], polls);
      var before := Polls(policy, fails, peers[..n], errs[..n]);
      TurnExplained(policy, Turns(policy, fails, peers[..n], errs[..n]), peers[n], errs[n], polls + before);
      assert polls + (before + [(peers[n].uri, errs[n])]) == polls + before + [(peers[n].uri, errs[n])];
    }
  }

  /** A round polls nobody exactly if every enabled peer's counter has reached RetryAttempts. */
  lemma {:induction false} NobodyPolledIff(policy: Policy, fails: map<bytes, int>, peers: seq<Target>, errs: seq<bool>)
    requires |errs| == |peers|
    ensures Polls(policy, fails, peers, errs) == [] <==>
            forall i | 0 <= i < |peers| && peers[i].enabled :: Count(fails, peers[i].uri) >= policy.retryAttempts
    ensures Polls(policy, fails, peers, errs) == [] ==>
            forall u :: Count(Turns(policy, fails, peers, errs), u) == Count(fails, u)
  {
    if peers == [] {
    } else {
      var n := |peers| - 1;
      NobodyPolledIff(policy, fails, peers[..n], errs[..n]);
      assert forall i | 0 <= i < n :: peers[..n][i] == peers[i];
    }
  }

  ghost predicate Good(policy: Policy, v: Visit) {
    InBounds(policy, v.state) && Explained(v.state.fails, v.polls)
  }

  lemma RoundKeepsGood(policy: Policy, v: Visit, peers: seq<Target>, errs: seq<bool>)
    requires Good(policy, v) && |errs| == |peers|
    ensures Good(policy, VisitRound(policy, v, peers, errs))
  {
    hide Turns, Polls;
    TurnsInBounds(policy, v.state.fails, peers, errs);
    TurnsExplained(policy, v.state.fails, peers, errs, v.polls);
  }

  /** The visits of a run: any peers each round, in any order, and any results. */
  ghost predicate Run(policy: Policy, vs: seq<Visit>, peers: seq<seq<Target>>, errs: seq<seq<bool>>) {
    && |vs| == |peers| + 1 == |errs| + 1 && policy.groups != [] && vs[0] == Visit(START, [])
    && (forall i | 0 <= i < |peers| :: |errs[i]| == |peers[i]|)
    && forall i | 0 <= i < |peers| :: vs[i + 1] == VisitRound(policy, vs[i], peers[i], errs[i])
  }

  /** Every run stays in bounds, and each counter is the number of consecutive failures in this visit. */
  lemma {:induction false} RunIsGood(policy: Policy, vs: seq<Visit>, peers: seq<seq<Target>>, errs: seq<seq<bool>>)
    requires Run(policy, vs, peers, errs)
    ensures Good(policy, vs[|peers|])
    decreases |peers|
  {
    hide VisitRound, Good;
    if peers == [] {
      StartIsGood(policy);
    } else {
      var n := |peers| - 1;
      RunIsGood(policy, vs[..n + 1], peers[..n], errs[..n]);
      RoundKeepsGood(policy, vs[n], peers[n], errs[n]);
    }
  }

  /** In every run the outbox is flushed in the first round and then in every five hundredth, whatever the polls do. */
  lemma {:induction false} FlushesEvery500(policy: Policy, vs: seq<Visit>, peers: seq<seq<Target>>,
                                           errs: seq<seq<bool>>, n: nat)
    requires Run(policy, vs, peers, errs) && n <= |peers|
    ensures vs[n].state.counter == n && (Flushes(vs[n].state) <==> n % 500 == 0)
    decreases n
  {
    hide Turns, Polls;
    if n == 0 {
    } else {
      FlushesEvery500(policy, vs, peers, errs, n - 1);
      assert vs[(n - 1) + 1] == VisitRound(policy, vs[n - 1], peers[n - 1], errs[n - 1]);
    }
  }

  lemma StartIsGood(policy: Policy)
    requires policy.groups != []
    ensures Good(policy, Visit(START, []))
  {}

  /**
   * In every run a round leaves its group exactly if each enabled peer of the group failed its last RetryAttempts
   * polls of this visit, and there is a group to go to: the next one, or the first behind the last.
   */
  lemma GroupIsLeftIff(policy: Policy, vs: seq<Visit>, peers: seq<seq<Target>>, errs: seq<seq<bool>>, n: nat)
    requires Run(policy, vs, peers, errs) && n < |peers|
    ensures Leaves(policy, vs[n].state, peers[n], errs[n]) <==>
      && (vs[n].state.group < |policy.groups| - 1 || policy.retryForever)
      && forall i | 0 <= i < |peers[n]| && peers[n][i].enabled ::
           Consecutive(vs[n].polls, peers[n][i].uri) >= policy.retryAttempts
    ensures var now, next, last := vs[n].state, vs[n + 1].state, |policy.groups| - 1;
      if Leaves(policy, now, peers[n], errs[n]) then
        next.fails == map[] && next.group == if now.group == last then 0 else now.group + 1
      else next.group == now.group
  {
    hide Consecutive, Polls, Turns;
    assert Run(policy, vs[..n + 1], peers[..n], errs[..n]);
    assert vs[n + 1] == VisitRound(policy, vs[n], peers[n], errs[n]);
    RunIsGood(policy, vs[..n + 1], peers[..n], errs[..n]);
    NobodyPolledIff(policy, vs[n].state.fails, peers[n], errs[n]);
  }

  // Fairness when every poll fails

  function AllFail(n: nat): (errs: seq<bool>)
    ensures |errs| == n && forall i | 0 <= i < n :: errs[i]
  {
    seq(n, _ => true)
  }

  lemma {:induction false} FailuresAddUp(policy: Policy, fails: map<bytes, int>, peers: seq<Target>, errs: seq<bool>)
    requires |errs| == |peers| && forall i | 0 <= i < |errs| :: errs[i]
    ensures var after := Turns(policy, fails, peers, errs);
      && (forall u :: Count(after, u) >= Count(fails, u))
      && forall i | 0 <= i < |peers| && peers[i].enabled ::
           || Count(after, peers[i].uri) >= policy.retryAttempts
           || Count(after, peers[i].uri) >= Count(fails, peers[i].uri) + 1
  {
    if peers == [] {
    } else {
      var n := |peers| - 1;
      FailuresAddUp(policy, fails, peers[..n], errs[..n]);
      assert forall i | 0 <= i < n :: peers[..n][i] == peers[i];
    }
  }

  /** The peers of each round and group; their order may differ from round to round, they may not. */
  type Roster = (nat, nat) -> seq<Target>

  ghost predicate Fixed(peers: Roster) {
    forall t: nat, t': nat, g: nat, p: Target :: p in peers(t, g) ==> p in peers(t', g)
  }

  function Failing(policy: Policy, peers: Roster, s: State, t: nat): State
    decreases t
  {
    if t == 0 then s
    else
      var before := Failing(policy, peers, s, t - 1);
      var ps := peers(t - 1, before.group);
      Round(policy, before, ps, AllFail(|ps|))
  }

  /** Every enabled peer of the group lacks at most d failures. */
  ghost predicate Lacks(policy: Policy, peers: Roster, s: State, d: int) {
    forall t: nat, p | p in peers(t, s.group) && p.enabled :: Count(s.fails, p.uri) >= policy.retryAttempts - d
  }

  function Next(policy: Policy, g: nat): nat {
    if g < |policy.groups| - 1 then g + 1 else 0
  }

  /** A round with every poll failing leaves the group or brings every enabled peer one failure closer. */
  lemma FailingRound(policy: Policy, peers: Roster, s: State, t: nat, d: nat)
    requires policy.retryForever && Fixed(peers) && Lacks(policy, peers, s, d)
    ensures var ps := peers(t, s.group); var s' := Round(policy, s, ps, AllFail(|ps|));
      || (s'.group == Next(policy, s.group) && s'.fails == map[])
      || (d > 0 && s'.group == s.group && Lacks(policy, peers, s', d - 1))
  {
    hide Turns, Polls;
    var ps := peers(t, s.group);
    var errs := AllFail(|ps|);
    NobodyPolledIff(policy, s.fails, ps, errs);
    FailuresAddUp(policy, s.fails, ps, errs);
    forall i | 0 <= i < |ps| && ps[i].enabled ensures Count(s.fails, ps[i].uri) >= policy.retryAttempts - d {
      assert ps[i] in peers(t, s.group);
    }
    if !Leaves(policy, s, ps, errs) {
      var after := Turns(policy, s.fails, ps, errs);
      forall u: nat, p | p in peers(u, s.group) && p.enabled
        ensures Count(after, p.uri) >= policy.retryAttempts - (d - 1)
      {
        assert p in ps;
        var i :| 0 <= i < |ps| && ps[i] == p;
      }
    }
  }

  /** From a state at round t, the next group is entered within d + 1 rounds. */
  lemma {:induction false} NextGroup(policy: Policy, peers: Roster, s: State, t: nat, d: nat) returns (t': nat)
    requires policy.retryForever && Fixed(peers) && Lacks(policy, peers, Failing(policy, peers, s, t), d)
    ensures t < t' <= t + d + 1
    ensures Failing(policy, peers, s, t').group == Next(policy, Failing(policy, peers, s, t).group)
    ensures Failing(policy, peers, s, t').fails == map[]
    decreases d
  {
    hide Round, Lacks, Fixed;
    var now, next := Failing(policy, peers, s, t), Failing(policy, peers, s, t + 1);
    FailingRound(policy, peers, now, t, d);
    if next.group == Next(policy, now.group) && next.fails == map[] {
      t' := t + 1;
    } else {
      t' := NextGroup(policy, peers, s, t + 1, d - 1);
    }
  }

  lemma NonNegativeLacks(policy: Policy, peers: Roster, s: State)
    requires forall u | u in s.fails :: s.fails[u] >= 0
    ensures Lacks(policy, peers, s, Max(0, policy.retryAttempts))
  {}

  /** k groups further on within k * (RetryAttempts + 1) rounds. */
  lemma {:induction false} GroupsOn(policy: Policy, peers: Roster, s: State, k: nat) returns (t: nat)
    requires policy.retryForever && Fixed(peers) && s.group < |policy.groups|
    requires forall u | u in s.fails :: s.fails[u] >= 0
    ensures t <= k * (Max(0, policy.retryAttempts) + 1)
    ensures Failing(policy, peers, s, t).group == (s.group + k) % |policy.groups|
    ensures forall u | u in Failing(policy, peers, s, t).fails :: Failing(policy, peers, s, t).fails[u] >= 0
    decreases k
  {
    hide Round, Fixed, Lacks;
    var n, d := |policy.groups|, Max(0, policy.retryAttempts);
    if k == 0 {
      t := 0;
      DivideUnique(s.group, n, 0, s.group);
    } else {
      var t0 := GroupsOn(policy, peers, s, k - 1);
      NonNegativeLacks(policy, peers, Failing(policy, peers, s, t0));
      t := NextGroup(policy, peers, s, t0, d);
      NextIsModular(policy, s.group + k - 1);
      assert k * (d + 1) == (k - 1) * (d + 1) + (d + 1);
    }
  }

  lemma NextIsModular(policy: Policy, g: nat)
    requires policy.groups != []
    ensures Next(policy, g % |policy.groups|) == (g + 1) % |policy.groups|
  {
    var n := |policy.groups|;
    var q, r := g / n, g % n;
    assert g == n * q + r;
    if r < n - 1 {
      DivideUnique(g + 1, n, q, r + 1);
    } else {
      assert n * (q + 1) == n * q + n;
      DivideUnique(g + 1, n, q + 1, 0);
    }
  }

  /** With RetryForever and fixed peers that all fail, every group is visited within that many rounds. */
  lemma EveryGroupIsVisited(policy: Policy, peers: Roster, s: State, target: nat) returns (t: nat)
    requires policy.retryForever && Fixed(peers) && InBounds(policy, s) && target < |policy.groups|
    ensures t <= |policy.groups| * (Max(0, policy.retryAttempts) + 1)
    ensures Failing(policy, peers, s, t).group == target
  {
    hide Failing, Fixed;
    var n := |policy.groups|;
    var k := if target >= s.group then target - s.group else target + n - s.group;
    t := GroupsOn(policy, peers, s, k);
    Wraps(s.group, k, n, target);
    Product(k, n, Max(0, policy.retryAttempts) + 1);
  }

  lemma Wraps(g: nat, k: nat, n: nat, target: nat)
    requires g < n && target < n && (g + k == target || g + k == target + n)
    ensures (g + k) % n == target
  {
    DivideUnique(g + k, n, if g + k == target then 0 else 1, target);
  }

  lemma Product(k: nat, n: nat, d: nat)
    requires k <= n
    ensures k * d <= n * d
  {
    assert (n - k) * d >= 0 && (n - k) * d == n * d - k * d;
  }
}
