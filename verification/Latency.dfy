/**
 The latency model of the cluster harness: which delay distribution shapes a directed
 link, what a sample of it may be, and the inbound description shown to the operator.
 Durations are whole nanoseconds.
 */
module Latency {
  import opened Wrappers

  datatype DelayDist =
    | Fixed(d: nat)
    | Uniform(min: nat, max: nat)
    | Normal(mean: nat, stddev: nat)

  // The values one draw may take. The interval is closed because the source rounds a
  // floating-point draw to nanoseconds; a degenerate range collapses to `min`, and a
  // normal distribution without deviation to its mean.
  predicate CanSample(delay: Option<DelayDist>, sample: nat) {
    match delay
    case None => sample == 0
    case Some(Fixed(d)) => sample == d
    case Some(Uniform(min, max)) => if max <= min then sample == min else min <= sample <= max
    case Some(Normal(mean, stddev)) => stddev == 0 ==> sample == mean
  }

  /** What a draw may be: nothing without a delay, the fixed one, anything in the range, and the mean when
      there is no deviation. */
  lemma DrawsAre(d: nat, min: nat, max: nat, mean: nat, stddev: nat, s: nat)
    ensures CanSample(None, s) <==> s == 0
    ensures CanSample(Some(Fixed(d)), s) <==> s == d
    ensures min < max ==> (CanSample(Some(Uniform(min, max)), s) <==> min <= s <= max)
    ensures max <= min ==> (CanSample(Some(Uniform(min, max)), s) <==> s == min)
    ensures CanSample(Some(Normal(mean, 0)), s) <==> s == mean
    ensures stddev > 0 ==> CanSample(Some(Normal(mean, stddev)), s)
  {
  }

  // Some(c) when every draw is the constant c.
  function ConstantDelay(delay: Option<DelayDist>): (c: Option<nat>)
    ensures c.Some? ==> forall s: nat :: CanSample(delay, s) <==> s == c.value
    ensures c.None? ==> exists s: nat, t: nat :: s != t && CanSample(delay, s) && CanSample(delay, t)
  {
    match delay
    case None => Some(0)
    case Some(Fixed(d)) => Some(d)
    case Some(Uniform(min, max)) =>
      assert min < max ==> CanSample(delay, min) && CanSample(delay, max);
      if max <= min then Some(min) else None
    case Some(Normal(mean, stddev)) =>
      assert stddev > 0 ==> CanSample(delay, 0) && CanSample(delay, 1);
      if stddev == 0 then Some(mean) else None
  }

  datatype LatencyConfig = LatencyConfig(
    default: Option<DelayDist>,
    perNode: map<nat, DelayDist>,
    perLink: map<(nat, nat), DelayDist>)
  {
    function Resolve(src: nat, dst: nat): Option<DelayDist> {
      if (src, dst) in perLink then Some(perLink[(src, dst)])
      else if dst in perNode then Some(perNode[dst])
      else default
    }
  }

  /** A link's own entry comes first, then the entry of the node it leads to, then the default; entries
      for other links and nodes do not matter. */
  lemma MostSpecificWins(cfg: LatencyConfig, src: nat, dst: nat, d: DelayDist, link: (nat, nat), node: nat)
    ensures cfg.(perLink := cfg.perLink[(src, dst) := d]).Resolve(src, dst) == Some(d)
    ensures (src, dst) in cfg.perLink ==>
              cfg.(perNode := cfg.perNode[node := d], default := Some(d)).Resolve(src, dst)
              == Some(cfg.perLink[(src, dst)])
    ensures (src, dst) !in cfg.perLink ==> cfg.(perNode := cfg.perNode[dst := d]).Resolve(src, dst) == Some(d)
    ensures dst in cfg.perNode ==> cfg.(default := Some(d)).Resolve(src, dst) == cfg.Resolve(src, dst)
    ensures (src, dst) !in cfg.perLink && dst !in cfg.perNode ==>
              cfg.(default := Some(d)).Resolve(src, dst) == Some(d) && cfg.(default := None).Resolve(src, dst) == None
    ensures link != (src, dst) ==>
              cfg.(perLink := cfg.perLink[link := d]).Resolve(src, dst) == cfg.Resolve(src, dst)
    ensures node != dst ==> cfg.(perNode := cfg.perNode[node := d]).Resolve(src, dst) == cfg.Resolve(src, dst)
  {
  }

  datatype Description = Single(text: string) | PerSource(links: map<nat, string>)

  // The links a breakdown lists: every other node whose traffic to `node` is delayed.
  function Delayed(cfg: LatencyConfig, node: nat, numNodes: nat, describe: DelayDist -> string): map<nat, string> {
    map src | 0 <= src < numNodes && src != node && cfg.Resolve(src, node).Some? ::
      describe(cfg.Resolve(src, node).value)
  }

  /** The loop that collects the delayed sources and the collapse into one line when they all read
      alike; `describe` is the printed form of one distribution, in which values may be rounded. */
  method DescribeInbound(cfg: LatencyConfig, node: nat, numNodes: nat, describe: DelayDist -> string)
    returns (r: Option<Description>)
    ensures r.None? <==> forall src: nat | src < numNodes && src != node :: cfg.Resolve(src, node).None?
    ensures r.Some? && r.value.PerSource? ==>
              && (forall src: nat :: src in r.value.links
                                     <==> src < numNodes && src != node && cfg.Resolve(src, node).Some?)
              && (forall src: nat | src in r.value.links ::
                    r.value.links[src] == describe(cfg.Resolve(src, node).value))
    ensures r.Some? && r.value.PerSource? ==>
              exists i, j :: i in r.value.links && j in r.value.links && r.value.links[i] != r.value.links[j]
    ensures r.Some? && r.value.Single? ==>
              forall src: nat | src < numNodes && src != node && cfg.Resolve(src, node).Some? ::
                describe(cfg.Resolve(src, node).value) == r.value.text
  {
    var perSrc: map<nat, string> := map[];
    var first: Option<string> := None;
    var firstSrc: nat := 0;
    for src := 0 to numNodes
      invariant perSrc == map s | 0 <= s < src && s != node && cfg.Resolve(s, node).Some? ::
                            describe(cfg.Resolve(s, node).value)
      invariant first.None? ==> perSrc == map[]
      invariant first.Some? ==> firstSrc in perSrc && perSrc[firstSrc] == first.value
    {
      if src != node {
        var dist := cfg.Resolve(src, node);
        if dist.Some? {
          perSrc := perSrc[src := describe(dist.value)];
          if first.None? {
            first, firstSrc := Some(describe(dist.value)), src;
          }
        }
      }
    }
    assert perSrc == Delayed(cfg, node, numNodes, describe);
    if first.None? {
      forall src: nat | src < numNodes && src != node
        ensures cfg.Resolve(src, node).None?
      {
        assert src !in Delayed(cfg, node, numNodes, describe);
      }
      return None;
    }
    assert cfg.Resolve(firstSrc, node).Some?;
    if forall src | src in perSrc :: perSrc[src] == first.value {
      forall src: nat | src < numNodes && src != node && cfg.Resolve(src, node).Some?
        ensures describe(cfg.Resolve(src, node).value) == first.value
      {
        assert src in perSrc;
      }
      return Some(Single(first.value));
    }
    return Some(PerSource(perSrc));
  }

  // A single line claims that every inbound link is delayed as it says.
  ghost predicate SpeaksForEveryLink(
      cfg: LatencyConfig, node: nat, numNodes: nat, describe: DelayDist -> string, text: string) {
    forall src: nat | src < numNodes && src != node ::
      cfg.Resolve(src, node).Some? && describe(cfg.Resolve(src, node).value) == text
  }

  /** The collapsed line is promised only for links that are all shaped identically, but the
      code skips undelayed sources. It tells the truth exactly when nothing falls through to
      "no delay": a default or a per-node entry exists, or every source has its own entry. */
  lemma SingleLineIsTrueIff(
      cfg: LatencyConfig, node: nat, numNodes: nat, describe: DelayDist -> string, text: string)
    requires forall src: nat | src < numNodes && src != node && cfg.Resolve(src, node).Some? ::
               describe(cfg.Resolve(src, node).value) == text
    ensures SpeaksForEveryLink(cfg, node, numNodes, describe, text)
            <==> (cfg.default.Some? || node in cfg.perNode
                  || forall src: nat | src < numNodes && src != node :: (src, node) in cfg.perLink)
  {
    if SpeaksForEveryLink(cfg, node, numNodes, describe, text) && cfg.default.None? && node !in cfg.perNode {
      forall src: nat | src < numNodes && src != node ensures (src, node) in cfg.perLink {
        assert cfg.Resolve(src, node).Some?;
      }
    }
  }
}
