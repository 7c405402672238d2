/** The proxy rotation helper: which nodes of a group are candidates, the
    delay probe's sentinel, and one round of picking the next usable node. */
module ClashController {
  import opened Wrappers
  import opened Strings

  // ------------------------------------------------------------ the node filter

  /** Reserved node names that are never candidates. */
  const ReservedNames: seq<string> := ["DIRECT", "REJECT", "GLOBAL", "AUTO", "direct", "reject"]

  /** Prefixes of the automatic-selection groups. */
  const ExcludedPrefixes: seq<string> := ["\U{1F680}", "\U{267B}\U{FE0F}", "\U{1F52F}", "\U{1F504}"]

  /** Fragments that mark automatic, fail-over, load-balancing or known-bad nodes. */
  const ExcludedFragments: seq<string> :=
    ["自动", "故障", "负载", "\U{1F1ED}\U{1F1F0} 香港 04", "Cherry"]

  /** The exclusion test of `get_available_proxies` for one node name. */
  predicate Excluded(p: string) {
    || p in ReservedNames
    || (exists k :: 0 <= k < |ExcludedPrefixes| && StartsWith(p, ExcludedPrefixes[k]))
    || (exists k :: 0 <= k < |ExcludedFragments| && Contains(p, ExcludedFragments[k]))
  }

  /** The comprehension over `all`: the names not excluded, in order. */
  function FilterProxies(all: seq<string>): (r: seq<string>)
    ensures |r| <= |all|
    ensures forall p :: p in r ==> p in all && !Excluded(p)
    decreases |all|
  {
    if all == [] then []
    else
      var init := FilterProxies(all[..|all| - 1]);
      var p := all[|all| - 1];
      init + (if Excluded(p) then [] else [p])
  }

  /** A name is kept exactly when it is in the group and not excluded. */
  lemma {:induction false} FilterProxiesMembers(all: seq<string>, p: string)
    ensures p in FilterProxies(all) <==> p in all && !Excluded(p)
    decreases |all|
  {
    if all != [] {
      var init := all[..|all| - 1];
      FilterProxiesMembers(init, p);
      assert p in all <==> p in init || p == all[|all| - 1];
    }
  }

  /** The filter keeps order: filtering a concatenation concatenates the results. */
  lemma {:induction false} FilterProxiesAppend(a: seq<string>, b: seq<string>)
    ensures FilterProxies(a + b) == FilterProxies(a) + FilterProxies(b)
    decreases |b|
  {
    if b == [] {
      assert a + b == a;
    } else {
      var b' := b[..|b| - 1];
      assert (a + b)[..|a + b| - 1] == a + b';
      assert (a + b)[|a + b| - 1] == b[|b| - 1];
      FilterProxiesAppend(a, b');
    }
  }

  /** The reply of the group lookup: nothing (the request failed or the dict
      is empty), or a group whose `all` key may be missing. */
  datatype GroupInfo = NoGroup | Group(all: Option<seq<string>>)

  /** `get_available_proxies` */
  function GetAvailableProxies(info: GroupInfo): (r: seq<string>)
    ensures info.NoGroup? ==> r == []
    ensures info.Group? ==> r == FilterProxies(info.all.GetOr([]))
  {
    match info
    case NoGroup => []
    case Group(all) => FilterProxies(all.GetOr([]))
  }

  // ------------------------------------------------------------ the delay probe

  /** What the delay request does: an HTTP reply whose JSON may lack `delay`,
      or an exception. */
  datatype DelayResponse = DelayReply(statusCode: int, delay: Option<int>) | DelayRaised

  /** `test_proxy_delay`: the reported delay, or -1 for a failure. */
  function TestProxyDelay(resp: DelayResponse): (d: int)
    ensures resp.DelayRaised? ==> d == -1
    ensures resp.DelayReply? && resp.statusCode != 200 ==> d == -1
    ensures resp.DelayReply? && resp.statusCode == 200 ==> d == resp.delay.GetOr(-1)
  {
    match resp
    case DelayRaised => -1
    case DelayReply(code, delay) => if code == 200 then delay.GetOr(-1) else -1
  }

  /** A probe reports a usable node only for a successful reply that carries
      a delay other than -1. */
  lemma UsableOnlyOnSuccess(resp: DelayResponse)
    ensures TestProxyDelay(resp) != -1 <==>
              resp.DelayReply? && resp.statusCode == 200 && resp.delay.Some? && resp.delay.value != -1
  {
  }

  /** The delays of `probe_proxies`, where `probe(i, p)` is the reply of the
      `i`-th delay request, for node `p`; a repeated node keeps its last value. */
  function Probed(proxies: seq<string>, probe: (nat, string) -> DelayResponse): map<string, int>
    decreases |proxies|
  {
    if proxies == [] then map[]
    else
      var i := |proxies| - 1;
      Probed(proxies[..i], probe)[proxies[i] := TestProxyDelay(probe(i, proxies[i]))]
  }

  /** Every probed node, and no other, has a delay: the one of its last probe. */
  lemma {:induction false} ProbedIsLastProbe(proxies: seq<string>, probe: (nat, string) -> DelayResponse, i: nat)
    requires i < |proxies| && forall j :: i < j < |proxies| ==> proxies[j] != proxies[i]
    ensures proxies[i] in Probed(proxies, probe)
    ensures Probed(proxies, probe)[proxies[i]] == TestProxyDelay(probe(i, proxies[i]))
    decreases |proxies|
  {
    if i < |proxies| - 1 {
      var init := proxies[..|proxies| - 1];
      assert init[i] == proxies[i];
      ProbedIsLastProbe(init, probe, i);
    }
  }

  lemma {:induction false} ProbedDomain(proxies: seq<string>, probe: (nat, string) -> DelayResponse, p: string)
    ensures p in Probed(proxies, probe) <==> p in proxies
    decreases |proxies|
  {
    if proxies != [] {
      var init := proxies[..|proxies| - 1];
      ProbedDomain(init, probe, p);
      assert p in proxies <==> p in init || p == proxies[|proxies| - 1];
    }
  }

  /** `probe_proxies`: the loop filling `delays`. */
  method ProbeProxies(proxies: seq<string>, probe: (nat, string) -> DelayResponse) returns (delays: map<string, int>)
    ensures delays == Probed(proxies, probe)
  {
    delays := map[];
    for i := 0 to |proxies|
      invariant delays == Probed(proxies[..i], probe)
    {
      assert proxies[..i + 1][..i] == proxies[..i];
      var delay := TestProxyDelay(probe(i, proxies[i]));
      delays := delays[proxies[i] := delay];
    }
    assert proxies[..|proxies|] == proxies;
  }

  // ------------------------------------------------------------ the switch

  /** What the switch request does: an HTTP status, or an exception. */
  datatype SwitchResponse = SwitchReply(statusCode: int) | SwitchRaised

  /** `switch_proxy`: success is exactly a 204 reply. */
  function SwitchProxy(resp: SwitchResponse): (ok: bool)
    ensures ok <==> resp == SwitchReply(204)
  {
    resp.SwitchReply? && resp.statusCode == 204
  }

  // ------------------------------------------------------------ one round

  /** `proxies.index(p)`: the first position of `p`. */
  function IndexOf(proxies: seq<string>, p: string): (i: nat)
    requires p in proxies
    ensures i < |proxies| && proxies[i] == p
    ensures forall j :: 0 <= j < i ==> proxies[j] != p
  {
    if proxies[0] == p then 0 else 1 + IndexOf(proxies[1..], p)
  }

  /** Where the round starts: the first node when the current one is not
      listed, else the node after (the first listing of) the current one. */
  function StartIndex(proxies: seq<string>, current: Option<string>): (i: nat)
    requires proxies != []
    ensures i < |proxies|
  {
    if current.None? || current.value !in proxies then 0
    else (IndexOf(proxies, current.value) + 1) % |proxies|
  }

  /** `(i + 1) % n` for an index `i` of a list of length `n`. */
  lemma ModSucc(i: nat, n: nat)
    requires i < n
    ensures (i + 1) % n == if i + 1 == n then 0 else i + 1
  {
  }

  /** The start is the node after the current node's first listing, cyclically,
      or the first node. */
  lemma StartFollowsCurrent(proxies: seq<string>, current: Option<string>)
    requires proxies != []
    ensures current.Some? && current.value in proxies ==>
              var i := StartIndex(proxies, current);
              var before := if i == 0 then |proxies| - 1 else i - 1;
              proxies[before] == current.value && forall j :: 0 <= j < before ==> proxies[j] != current.value
    ensures current.None? || current.value !in proxies ==> StartIndex(proxies, current) == 0
  {
    if current.Some? && current.value in proxies {
      ModSucc(IndexOf(proxies, current.value), |proxies|);
    }
  }

  /** The position `k` steps after `start` in a cyclic list of length `n`:
      `(start + k) % n`. */
  function CyclicIndex(start: nat, k: nat, n: nat): (i: nat)
    requires start < n && k <= n
    ensures i < n
  {
    if start + k < n then start + k else start + k - n
  }

  lemma CyclicIndexIsMod(start: nat, k: nat, n: nat)
    requires start < n && k <= n
    ensures CyclicIndex(start, k, n) == (start + k) % n
  {
    if start + k >= n {
      assert start + k == 1 * n + (start + k - n);
    }
  }

  /** Some step of a round from `start` lands on position `i`. */
  ghost predicate Visited(start: nat, n: nat, i: nat)
    requires start < n
  {
    exists k :: 0 <= k < n && CyclicIndex(start, k, n) == i
  }

  /** A round visits every position exactly once, so no node is tried twice
      and none is skipped. */
  lemma RoundVisitsEachPositionOnce(start: nat, n: nat)
    requires start < n
    ensures forall j, k :: 0 <= j < k < n ==> CyclicIndex(start, j, n) != CyclicIndex(start, k, n)
    ensures forall i :: 0 <= i < n ==> Visited(start, n, i)
  {
    forall j, k | 0 <= j < k < n ensures CyclicIndex(start, j, n) != CyclicIndex(start, k, n) {
      if start + j < n && start + k >= n {
        assert CyclicIndex(start, k, n) < start;
      }
    }
    forall i | 0 <= i < n ensures Visited(start, n, i) {
      var k := if i >= start then i - start else i + n - start;
      assert CyclicIndex(start, k, n) == i;
    }
  }

  /** The `k`-th node examined in a round that starts at `start`. */
  function Candidate(proxies: seq<string>, start: nat, k: nat): (p: string)
    requires start < |proxies| && k < |proxies|
    ensures p in proxies
  {
    proxies[CyclicIndex(start, k, |proxies|)]
  }

  /** Whether the `k`-th attempt of the round succeeds: its delay test passes
      and then its switch request succeeds. The `k`-th attempt's replies are
      `delayAt(k, p)` and `switchAt(k, p)`. */
  predicate Usable(proxies: seq<string>, start: nat, k: nat,
                   delayAt: (nat, string) -> DelayResponse, switchAt: (nat, string) -> SwitchResponse)
    requires start < |proxies| && k < |proxies|
  {
    var p := Candidate(proxies, start, k);
    TestProxyDelay(delayAt(k, p)) != -1 && SwitchProxy(switchAt(k, p))
  }

  /** The inner loop of `auto_switch` (lines 151-186 of its body): starting
      after the current node, try each node once in cyclic order and switch
      to the first usable one. `nodesTried` is the loop counter at exit and
      `tested` the nodes whose delay was tested, in order. */
  method SelectProxy(proxies: seq<string>, current: Option<string>,
                     delayAt: (nat, string) -> DelayResponse, switchAt: (nat, string) -> SwitchResponse)
    returns (next: Option<string>, nodesTried: nat, ghost tested: seq<string>)
    requires proxies != []
    ensures var start := StartIndex(proxies, current);
            && nodesTried <= |proxies|
            && |tested| == (if nodesTried < |proxies| then nodesTried + 1 else nodesTried)
            && (forall k :: 0 <= k < |tested| ==> tested[k] == Candidate(proxies, start, k))
            && (forall k :: 0 <= k < nodesTried ==> !Usable(proxies, start, k, delayAt, switchAt))
            && (nodesTried < |proxies| ==>
                  Usable(proxies, start, nodesTried, delayAt, switchAt)
                  && next == Some(Candidate(proxies, start, nodesTried)))
            && (nodesTried == |proxies| ==> next == current)
  {
    var n := |proxies|;
    ghost var start := StartIndex(proxies, current);
    var currentIndex: nat;
    if current.None? || current.value !in proxies {
      currentIndex := 0;
    } else {
      currentIndex := IndexOf(proxies, current.value);
      currentIndex := (currentIndex + 1) % n;
    }
    assert currentIndex == start;
    next := current;
    nodesTried := 0;
    tested := [];
    while nodesTried < n
      invariant nodesTried <= n && currentIndex < n
      invariant start < n && currentIndex == CyclicIndex(start, nodesTried, n)
      invariant |tested| == nodesTried
      invariant forall k :: 0 <= k < nodesTried ==> tested[k] == Candidate(proxies, start, k)
      invariant forall k :: 0 <= k < nodesTried ==> !Usable(proxies, start, k, delayAt, switchAt)
      invariant next == current
    {
      var candidate := proxies[currentIndex];
      tested := tested + [candidate];
      var delay := TestProxyDelay(delayAt(nodesTried, candidate));
      if delay != -1 {
        if SwitchProxy(switchAt(nodesTried, candidate)) {
          next := Some(candidate);
          return;
        }
      }
      ModSucc(currentIndex, n);
      currentIndex := (currentIndex + 1) % n;
      nodesTried := nodesTried + 1;
    }
  }

  /** One pass of the outer loop of `auto_switch`: fetch the candidates, then,
      unless there are none, run one selection round. */
  method AutoSwitchStep(info: GroupInfo, current: Option<string>,
                        delayAt: (nat, string) -> DelayResponse, switchAt: (nat, string) -> SwitchResponse)
    returns (next: Option<string>, nodesTried: nat)
    ensures var proxies := GetAvailableProxies(info);
            && (proxies == [] ==> next == current && nodesTried == 0)
            && (proxies != [] ==>
                  var start := StartIndex(proxies, current);
                  && nodesTried <= |proxies|
                  && (forall k :: 0 <= k < nodesTried ==> !Usable(proxies, start, k, delayAt, switchAt))
                  && (nodesTried < |proxies| ==>
                        Usable(proxies, start, nodesTried, delayAt, switchAt)
                        && next == Some(Candidate(proxies, start, nodesTried)))
                  && (nodesTried == |proxies| ==> next == current))
    ensures next == current || (next.Some? && next.value in GetAvailableProxies(info) && !Excluded(next.value))
  {
    var proxies := GetAvailableProxies(info);
    if proxies == [] {
      next, nodesTried := current, 0;
      return;
    }
    ghost var tested;
    next, nodesTried, tested := SelectProxy(proxies, current, delayAt, switchAt);
  }
}
