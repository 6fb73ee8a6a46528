/** `PruningPolicy`: filters a list of thought nodes and marks what it prunes as dead ends, in place. */
module PruningPolicy {
  import opened Wrappers
  import opened Sorting
  import opened Pruning

  datatype EvaluationResult = Promising | DeadEnd | Solution | Uncertain

  class ThoughtNode {
    const score: real
    var evaluation: EvaluationResult

    constructor (score: real)
      ensures this.score == score && evaluation == Uncertain
    {
      this.score := score;
      evaluation := Uncertain;
    }
  }

  function Score(n: ThoughtNode): real { n.score }

  /** The nodes not yet marked, in list order. */
  function Alive(nodes: seq<ThoughtNode>): (r: seq<ThoughtNode>)
    reads nodes
    ensures forall n <- r :: n in nodes && n.evaluation != DeadEnd
    ensures forall n <- nodes :: n.evaluation != DeadEnd ==> n in r
  {
    if nodes == [] then []
    else
      var last := nodes[|nodes| - 1];
      assert nodes == nodes[..|nodes| - 1] + [last];
      Alive(nodes[..|nodes| - 1]) + if last.evaluation != DeadEnd then [last] else []
  }

  /** Repetitions and order are those of the list. */
  lemma {:induction false} AliveInOrder(nodes: seq<ThoughtNode>, n: ThoughtNode)
    ensures Subsequence(Alive(nodes), nodes)
    ensures n.evaluation != DeadEnd ==> multiset(Alive(nodes))[n] == multiset(nodes)[n]
  {
    if nodes != [] {
      var init := nodes[..|nodes| - 1];
      AliveInOrder(init, n);
      assert nodes == init + [nodes[|nodes| - 1]];
      var t := Alive(nodes);
      if nodes[|nodes| - 1].evaluation != DeadEnd {
        assert t[..|t| - 1] == Alive(init);
      } else {
        assert t == Alive(init);
      }
    }
  }

  class PruningPolicy {
    const config: Config

    constructor (config: Config)
      requires ValidConfig(config)
      ensures this.config == config
    {
      this.config := config;
    }

    /** Every list of live nodes is cut by the rule; of the listed nodes exactly the dropped ones are newly dead. */
    method Apply(nodes: seq<ThoughtNode>) returns (r: Result<seq<ThoughtNode>, PruningError>)
      requires ValidConfig(config)
      modifies nodes
      ensures var cut := Decide(config, old(Alive(nodes)), Score);
              && (cut.Ok? ==>
                r == Ok(cut.value.kept)
                && forall n <- nodes :: n.evaluation == if n in cut.value.dropped then DeadEnd else old(n.evaluation))
              && (cut.Err? ==> r == Err(cut.error) && forall n <- nodes :: n.evaluation == old(n.evaluation))
    {
      var alive := AliveNodes(nodes);
      assert forall i :: 0 <= i < |alive| ==> alive[i] in nodes;
      assert forall n <- nodes :: n !in alive ==> n.evaluation == DeadEnd;
      ghost var cut := Decide(config, alive, Score);
      match config.rule {
        case FixedThreshold =>
          var result := DropBelow(alive, config.threshold);
          r := Ok(result);
        case RelativeTopK =>
          var result := ApplyTopK(alive);
          r := Ok(result);
        case RelativePercentile =>
          r := ApplyPercentile(alive);
      }
    }

    method AliveNodes(nodes: seq<ThoughtNode>) returns (alive: seq<ThoughtNode>)
      ensures alive == Alive(nodes)
    {
      alive := [];
      for i := 0 to |nodes|
        invariant alive == Alive(nodes[..i])
      {
        assert nodes[..i + 1][..i] == nodes[..i];
        if nodes[i].evaluation != DeadEnd {
          alive := alive + [nodes[i]];
        }
      }
      assert nodes[..|nodes|] == nodes;
    }

    /** The loop of the fixed threshold and of the percentile. */
    method DropBelow(nodes: seq<ThoughtNode>, bar: real) returns (kept: seq<ThoughtNode>)
      modifies nodes
      ensures kept == Below(nodes, Score, bar).kept
      ensures forall n <- nodes :: n.evaluation == if n in Below(nodes, Score, bar).dropped then DeadEnd
            else old(n.evaluation)
    {
      kept := [];
      for i := 0 to |nodes|
        invariant kept == Below(nodes[..i], Score, bar).kept
        invariant forall n <- nodes ::
          n.evaluation == if n in Below(nodes[..i], Score, bar).dropped then DeadEnd else old(n.evaluation)
      {
        var node := nodes[i];
        assert nodes[..i + 1][..i] == nodes[..i];
        if node.score < bar {
          node.evaluation := DeadEnd;
        } else {
          kept := kept + [node];
        }
      }
      assert nodes[..|nodes|] == nodes;
    }

    method ApplyTopK(nodes: seq<ThoughtNode>) returns (kept: seq<ThoughtNode>)
      requires ValidConfig(config)
      modifies nodes
      ensures var cut := BestOf(nodes, Score, config.topK);
              && kept == cut.kept
              && forall n <- nodes :: n.evaluation == if n in cut.dropped then DeadEnd else old(n.evaluation)
    {
      if |nodes| <= config.topK {
        return nodes;
      }
      var sorted := Descending(nodes, Score);
      DescendingSorts(nodes, Score);
      var pruned := sorted[config.topK..];
      kept := sorted[..config.topK];
      forall i | 0 <= i < |pruned| ensures pruned[i] in nodes {
        assert pruned[i] in multiset(sorted);
      }
      for i := 0 to |pruned|
        invariant forall n <- nodes :: n.evaluation == if n in pruned[..i] then DeadEnd else old(n.evaluation)
      {
        pruned[i].evaluation := DeadEnd;
      }
      assert pruned[..|pruned|] == pruned;
    }

    method ApplyPercentile(nodes: seq<ThoughtNode>) returns (r: Result<seq<ThoughtNode>, PruningError>)
      requires ValidConfig(config)
      modifies nodes
      ensures var cut := TopShare(nodes, Score, config.percentile);
              && (cut.Ok? ==>
                r == Ok(cut.value.kept)
                && forall n <- nodes :: n.evaluation == if n in cut.value.dropped then DeadEnd else old(n.evaluation))
              && (cut.Err? ==> r == Err(cut.error) && forall n <- nodes :: n.evaluation == old(n.evaluation))
    {
      if |nodes| <= 1 {
        return Ok(nodes);
      }
      var scores := [];
      for i := 0 to |nodes|
        invariant scores == Scores(nodes[..i], Score)
      {
        assert nodes[..i + 1][..i] == nodes[..i];
        scores := scores + [nodes[i].score];
      }
      assert nodes[..|nodes|] == nodes;
      var sorted := SortBy(scores, x => x);
      SortSorts(scores, x => x);
      var index := CutIndex(|sorted|, config.percentile);
      if index >= |sorted| {
        return Err(IndexError);
      }
      var kept := DropBelow(nodes, sorted[index]);
      r := Ok(kept);
    }
  }
}
