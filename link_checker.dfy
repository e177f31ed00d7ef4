/** `checkLinksAccessibility` and the status rule of `checkSingleLink`, as a
    sequential abstraction of the worker pool: the outcome of each probe is
    an oracle, cancellation is the number of jobs the sender gets out, and
    the order in which results arrive is left open. */
module LinkChecker {
  import opened StatusClass

  /** What a HEAD request for one link ends in: the request cannot be built,
      the transport fails (timeouts, refused connections, too many
      redirects, cancellation), or a final response arrives. */
  datatype Probe = RequestError | TransportError | Response(status: int)

  /** The network as the checker sees it: the outcome of the probe of the
      `i`-th link, and how many jobs the sender dispatches before the
      context is cancelled (at least the whole list when it never is). */
  datatype Network = Network(probe: (nat, string) -> Probe, budget: nat)

  /** `checkSingleLink`: a link is accessible when its request is built and
      sent and the final status lies in [200, 400): a success in the sense
      of the metrics labels, or a redirect the client did not follow. */
  function CheckSingleLink(p: Probe): (accessible: bool)
    ensures accessible <==> p.Response? && (GetStatusClass(p.status) == Success || 300 <= p.status < 400)
  {
    match p
    case RequestError => false
    case TransportError => false
    case Response(status) => 200 <= status < 400
  }

  /** Accessibility agrees with the metrics labels on what is fine and what
      is an error: a 2xx is accessible, every client and server error is
      not, redirects are accessible although their label is "unknown", and
      without a response a link is never accessible. */
  lemma AccessibleVersusStatusClass(p: Probe)
    ensures CheckSingleLink(p) <==> p.Response? && (GetStatusClass(p.status) == Success || 300 <= p.status < 400)
    ensures p.Response? && 300 <= p.status < 400 ==> CheckSingleLink(p) && GetStatusClass(p.status) == Unknown
    ensures !p.Response? ==> !CheckSingleLink(p)
    ensures p.Response? && GetStatusClass(p.status) == Success ==> CheckSingleLink(p)
    ensures p.Response? && GetStatusClass(p.status) in {ClientError, ServerError} ==> !CheckSingleLink(p)
    ensures p.Response? && CheckSingleLink(p) ==>
              GetStatusClass(p.status) == Success || (GetStatusClass(p.status) == Unknown && 300 <= p.status < 400)
  {
  }

  /** The size of the pool: `MaxWorkers`, capped at the number of links. */
  function WorkerCount(maxWorkers: int, n: nat): (w: int)
    ensures w <= n && w <= maxWorkers
    ensures w == n || w == maxWorkers
    ensures n > 0 && maxWorkers > 0 ==> w > 0
  {
    if maxWorkers > n then n else maxWorkers
  }

  /** How many links get checked: none for an empty list or an empty pool,
      otherwise every job the sender dispatches, a prefix of the list. */
  function Checked(links: seq<string>, maxWorkers: int, net: Network): (k: nat)
    ensures k <= |links|
    ensures k > 0 <==> |links| > 0 && maxWorkers > 0 && net.budget > 0
  {
    if |links| == 0 || WorkerCount(maxWorkers, |links|) <= 0 then 0
    else if net.budget < |links| then net.budget
    else |links|
  }

  /** The verdicts on the first `k` links, in list order. */
  function Verdicts(links: seq<string>, net: Network, k: nat): (vs: seq<bool>)
    requires k <= |links|
    ensures |vs| == k
  {
    seq(k, i requires 0 <= i < k => CheckSingleLink(net.probe(i, links[i])))
  }

  /** The number of `false` verdicts. */
  function CountFalse(vs: seq<bool>): (c: nat)
    ensures c <= |vs|
  {
    if vs == [] then 0
    else CountFalse(vs[..|vs| - 1]) + (if vs[|vs| - 1] then 0 else 1)
  }

  /** The count depends only on the verdicts, not on their order. */
  lemma {:induction false} CountFalseIsMultiplicity(vs: seq<bool>)
    ensures CountFalse(vs) == multiset(vs)[false]
    decreases |vs|
  {
    if vs != [] {
      var init := vs[..|vs| - 1];
      CountFalseIsMultiplicity(init);
      assert vs == init + [vs[|vs| - 1]];
      assert multiset(vs) == multiset(init) + multiset{vs[|vs| - 1]};
    }
  }

  lemma CountFalseOrderFree(vs: seq<bool>, ws: seq<bool>)
    requires multiset(vs) == multiset(ws)
    ensures CountFalse(vs) == CountFalse(ws)
  {
    CountFalseIsMultiplicity(vs);
    CountFalseIsMultiplicity(ws);
  }

  /** `CountFalse` is zero exactly when every verdict is `true`. */
  lemma {:induction false} CountFalseZero(vs: seq<bool>)
    ensures CountFalse(vs) == 0 <==> forall i :: 0 <= i < |vs| ==> vs[i]
    decreases |vs|
  {
    if vs != [] {
      var init := vs[..|vs| - 1];
      CountFalseZero(init);
      assert forall i :: 0 <= i < |init| ==> init[i] == vs[i];
    }
  }

  /** The number the checker reports. */
  function Inaccessible(links: seq<string>, maxWorkers: int, net: Network): nat {
    CountFalse(Verdicts(links, net, Checked(links, maxWorkers, net)))
  }

  /** `checkLinksAccessibility`: the verdicts of the dispatched links are
      collected and the `false` ones counted. */
  method CheckLinksAccessibility(links: seq<string>, maxWorkers: int, net: Network) returns (inaccessible: int)
    ensures inaccessible == Inaccessible(links, maxWorkers, net)
    ensures 0 <= inaccessible <= |links|
  {
    if |links| == 0 {
      return 0;
    }
    var workers := maxWorkers;
    if workers > |links| {
      workers := |links|;
    }
    var results := RunWorkers(links, workers, net);
    var processed;
    inaccessible, processed := CollectResults(results);
    CountFalseIsMultiplicity(Verdicts(links, net, Checked(links, maxWorkers, net)));
  }

  /** The sender and the pool: the jobs the sender gets out before
      cancellation, each checked once when there is at least one worker to
      take it, leave their verdicts in the results channel, whose order the
      model does not fix. */
  method RunWorkers(links: seq<string>, workers: int, net: Network) returns (results: multiset<bool>)
    requires workers <= |links|
    ensures results == multiset(Verdicts(links, net, Checked(links, workers, net)))
  {
    results := multiset{};
    ghost var verdicts: seq<bool> := [];
    if workers > 0 {
      var sent := 0;
      while sent < |links| && sent < net.budget
        invariant sent <= |links| && sent <= net.budget
        invariant verdicts == Verdicts(links, net, sent)
        invariant results == multiset(verdicts)
      {
        var accessible := CheckSingleLink(net.probe(sent, links[sent]));
        results := results + multiset{accessible};
        verdicts := verdicts + [accessible];
        sent := sent + 1;
      }
    }
    assert verdicts == Verdicts(links, net, Checked(links, workers, net));
  }

  /** The collector: it takes the results in whatever order they arrive,
      until none is left, and counts those that are `false`. */
  method CollectResults(results: multiset<bool>) returns (inaccessible: int, processed: int)
    ensures inaccessible == results[false]
    ensures processed == results[true] + results[false]
  {
    inaccessible := 0;
    processed := 0;
    var pending := results;
    while pending[true] > 0 || pending[false] > 0
      invariant pending <= results
      invariant inaccessible + pending[false] == results[false]
      invariant processed + pending[true] + pending[false] == results[true] + results[false]
      decreases pending[true] + pending[false]
    {
      var accessible :| pending[accessible] > 0;
      pending := pending - multiset{accessible};
      processed := processed + 1;
      if !accessible {
        inaccessible := inaccessible + 1;
      }
    }
  }

  /** An empty list, or a pool of no workers, reports nothing. */
  lemma NothingToCheck(links: seq<string>, maxWorkers: int, net: Network)
    requires |links| == 0 || maxWorkers <= 0
    ensures Inaccessible(links, maxWorkers, net) == 0
  {
  }

  /** Without cancellation and with at least one worker every link is
      checked exactly once: the count is that of the inaccessible links of
      the whole list. */
  lemma AllCheckedWithoutCancellation(links: seq<string>, maxWorkers: int, net: Network)
    requires maxWorkers >= 1 && net.budget >= |links|
    ensures Checked(links, maxWorkers, net) == |links|
    ensures Inaccessible(links, maxWorkers, net) == CountFalse(Verdicts(links, net, |links|))
  {
  }

  /** When every probe succeeds nothing is inaccessible. */
  lemma AllAccessible(links: seq<string>, maxWorkers: int, net: Network)
    requires forall i :: 0 <= i < |links| ==> CheckSingleLink(net.probe(i, links[i]))
    ensures Inaccessible(links, maxWorkers, net) == 0
  {
    var vs := Verdicts(links, net, Checked(links, maxWorkers, net));
    CountFalseZero(vs);
  }

  lemma {:induction false} AllFalse(vs: seq<bool>)
    requires forall i :: 0 <= i < |vs| ==> !vs[i]
    ensures CountFalse(vs) == |vs|
    decreases |vs|
  {
    if vs != [] {
      var init := vs[..|vs| - 1];
      assert forall i :: 0 <= i < |init| ==> init[i] == vs[i];
      AllFalse(init);
    }
  }

  /** When every probe fails every dispatched link is inaccessible. */
  lemma AllInaccessible(links: seq<string>, maxWorkers: int, net: Network)
    requires forall i :: 0 <= i < |links| ==> !CheckSingleLink(net.probe(i, links[i]))
    ensures Inaccessible(links, maxWorkers, net) == Checked(links, maxWorkers, net)
  {
    AllFalse(Verdicts(links, net, Checked(links, maxWorkers, net)));
  }
}
