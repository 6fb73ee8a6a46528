/** The pruning rules of the Tree-of-Thought engine, as functions of the live nodes and their scores. */
module Pruning {
  import opened Wrappers
  import opened Sorting

  datatype PruningMethod = FixedThreshold | RelativeTopK | RelativePercentile

  datatype Config = Config(rule: PruningMethod, threshold: real, topK: int, percentile: real)

  /** The bounds of the validated configuration. */
  predicate ValidConfig(c: Config) {
    0.0 <= c.threshold <= 1.0 && 1 <= c.topK <= 10 && 0.0 <= c.percentile <= 1.0
  }

  datatype PruningError = IndexError

  /** The nodes that stay, and those that become dead ends. */
  datatype Cut<T> = Cut(kept: seq<T>, dropped: seq<T>)

  /** Drops what scores below the bar; the order of both parts is that of the list. */
  function Below<T>(s: seq<T>, score: T -> real, bar: real): Cut<T> {
    if s == [] then Cut([], [])
    else
      var last, rest := s[|s| - 1], Below(s[..|s| - 1], score, bar);
      if score(last) < bar then rest.(dropped := rest.dropped + [last]) else rest.(kept := rest.kept + [last])
  }

  /** `sorted(nodes, key=score, reverse=True)`: equal scores stay in list order. */
  function Descending<T>(s: seq<T>, score: T -> real): seq<T> { SortBy(s, x => -score(x)) }

  lemma DescendingSorts<T>(s: seq<T>, score: T -> real)
    ensures multiset(Descending(s, score)) == multiset(s) && |Descending(s, score)| == |s|
    ensures forall i, j :: 0 <= i < j < |s| ==> score(Descending(s, score)[i]) >= score(Descending(s, score)[j])
  {
    var key := (x: T) => -score(x);
    SortSorts(s, key);
    var d := Descending(s, score);
    forall i, j | 0 <= i < j < |s| ensures score(d[i]) >= score(d[j]) {
      assert key(d[i]) <= key(d[j]);
    }
  }

  function BestOf<T>(s: seq<T>, score: T -> real, k: nat): Cut<T> {
    if |s| <= k then Cut(s, [])
    else
      var d := Descending(s, score);
      DescendingSorts(s, score);
      Cut(d[..k], d[k..])
  }

  function Scores<T>(s: seq<T>, score: T -> real): (r: seq<real>)
    ensures |r| == |s|
  {
    if s == [] then [] else Scores(s[..|s| - 1], score) + [score(s[|s| - 1])]
  }

  function SortedScores<T>(s: seq<T>, score: T -> real): (r: seq<real>)
    ensures |r| == |s|
  {
    SortSorts(Scores(s, score), x => x);
    SortBy(Scores(s, score), x => x)
  }

  /** `int(n * p)`, in exact arithmetic. */
  function CutIndex(n: nat, percentile: real): (i: nat)
    requires percentile >= 0.0
    ensures percentile < 1.0 && n > 0 ==> i < n
    ensures percentile == 1.0 ==> i == n
  {
    var share := n as real * percentile;
    ShareRange(n as real, percentile, share);
    FloorRange(share, n);
    share.Floor
  }

  lemma ShareRange(n: real, p: real, share: real)
    requires n >= 0.0 && p >= 0.0 && share == n * p
    ensures 0.0 <= share && (p < 1.0 && n > 0.0 ==> share < n) && (p == 1.0 ==> share == n)
  {
    if p < 1.0 && n > 0.0 {
      assert n * (1.0 - p) > 0.0;
      assert n * (1.0 - p) == n - n * p;
    }
  }

  lemma FloorRange(share: real, n: nat)
    requires 0.0 <= share
    ensures 0 <= share.Floor && (share < n as real ==> share.Floor < n) && (share == n as real ==> share.Floor == n)
  {
  }

  function TopShare<T>(s: seq<T>, score: T -> real, percentile: real): Result<Cut<T>, PruningError>
    requires percentile >= 0.0
  {
    if |s| <= 1 then Ok(Cut(s, []))
    else
      var i := CutIndex(|s|, percentile);
      if i >= |s| then Err(IndexError) else Ok(Below(s, score, SortedScores(s, score)[i]))
  }

  /** What the policy does to the live nodes. */
  function Decide<T>(c: Config, s: seq<T>, score: T -> real): Result<Cut<T>, PruningError>
    requires ValidConfig(c)
  {
    match c.rule
    case FixedThreshold => Ok(Below(s, score, c.threshold))
    case RelativeTopK => Ok(BestOf(s, score, c.topK))
    case RelativePercentile => TopShare(s, score, c.percentile)
  }

  // ------------------------------------------------------------------ the cut is exact

  lemma {:induction false} BelowCovers<T>(s: seq<T>, score: T -> real, bar: real)
    ensures var c := Below(s, score, bar);
            multiset(c.kept) + multiset(c.dropped) == multiset(s) && |c.kept| + |c.dropped| == |s|
  {
    if s != [] {
      BelowCovers(s[..|s| - 1], score, bar);
      assert s == s[..|s| - 1] + [s[|s| - 1]];
    }
  }

  lemma {:induction false} DroppedCounts<T>(s: seq<T>, score: T -> real, bar: real, x: T)
    ensures multiset(Below(s, score, bar).dropped)[x] == if score(x) < bar then multiset(s)[x] else 0
  {
    if s != [] {
      var init, last := s[..|s| - 1], s[|s| - 1];
      DroppedCounts(init, score, bar, x);
      assert s == init + [last];
      assert multiset(s)[x] == multiset(init)[x] + multiset{last}[x];
    }
  }

  /** Every element is on the side its score puts it on, as often as in the list. */
  lemma BelowCounts<T>(s: seq<T>, score: T -> real, bar: real, x: T)
    ensures var c := Below(s, score, bar);
            && multiset(c.dropped)[x] == (if score(x) < bar then multiset(s)[x] else 0)
            && multiset(c.kept)[x] == (if score(x) < bar then 0 else multiset(s)[x])
  {
    var c := Below(s, score, bar);
    DroppedCounts(s, score, bar, x);
    BelowCovers(s, score, bar);
    assert (multiset(c.kept) + multiset(c.dropped))[x] == multiset(s)[x];
  }

  lemma {:induction false} BelowSides<T>(s: seq<T>, score: T -> real, bar: real)
    ensures var c := Below(s, score, bar);
            && (forall x <- c.kept :: score(x) >= bar)
            && (forall x <- c.dropped :: score(x) < bar)
            && (c.kept == [] <==> forall x <- s :: score(x) < bar)
  {
    if s != [] {
      BelowSides(s[..|s| - 1], score, bar);
      assert s == s[..|s| - 1] + [s[|s| - 1]];
    }
  }

  lemma BelowSplits<T>(s: seq<T>, score: T -> real, bar: real)
    ensures var c := Below(s, score, bar);
            && multiset(c.kept) + multiset(c.dropped) == multiset(s)
            && |c.kept| + |c.dropped| == |s|
            && (forall x <- c.kept :: score(x) >= bar)
            && (forall x <- c.dropped :: score(x) < bar)
            && (c.kept == [] <==> forall x <- s :: score(x) < bar)
  {
    BelowCovers(s, score, bar);
    BelowSides(s, score, bar);
  }

  /** Top-k keeps `min(k, n)` nodes, and none of them scores below a dropped one. */
  lemma BestOfKeepsBest<T>(s: seq<T>, score: T -> real, k: nat)
    ensures var c := BestOf(s, score, k);
            && multiset(c.kept) + multiset(c.dropped) == multiset(s)
            && |c.kept| == (if |s| <= k then |s| else k)
            && (forall x, y :: x in c.kept && y in c.dropped ==> score(x) >= score(y))
  {
    if |s| > k {
      var d := Descending(s, score);
      DescendingSorts(s, score);
      assert d == d[..k] + d[k..];
    }
  }

  /** Of the nodes that tie, those earlier in the list stay. */
  lemma TiesKeepOrder<T>(s: seq<T>, score: T -> real, k: nat, v: real)
    ensures var c := BestOf(s, score, k);
            OfKey(c.kept, x => -score(x), v) + OfKey(c.dropped, x => -score(x), v) == OfKey(s, x => -score(x), v)
  {
    if |s| > k {
      var d := Descending(s, score);
      DescendingSorts(s, score);
      SortStable(s, x => -score(x), v);
      assert d == d[..k] + d[k..];
      OfKeyConcat(d[..k], d[k..], x => -score(x), v);
    } else {
      assert OfKey(s, x => -score(x), v) + [] == OfKey(s, x => -score(x), v);
    }
  }

  // ------------------------------------------------------------------ percentile

  lemma {:induction false} ScoresAre<T>(s: seq<T>, score: T -> real, bar: real)
    ensures |Below(s, score, bar).dropped| == |Below(Scores(s, score), x => x, bar).dropped|
    ensures forall x <- s :: score(x) in Scores(s, score)
    ensures forall r <- Scores(s, score) :: exists x :: x in s && score(x) == r
  {
    if s != [] {
      var init, last := s[..|s| - 1], s[|s| - 1];
      ScoresAre(init, score, bar);
      assert Scores(s, score)[..|s| - 1] == Scores(init, score);
      assert s == init + [last];
      forall r <- Scores(s, score) ensures exists x :: x in s && score(x) == r {
        if r in Scores(init, score) {
          var x :| x in init && score(x) == r;
          assert x in s;
        } else {
          assert last in s;
        }
      }
    }
  }

  /** Sorting does not change how many scores lie below a bar. */
  lemma SameCount(a: seq<real>, b: seq<real>, score: real -> real, bar: real)
    requires multiset(a) == multiset(b)
    ensures |Below(a, score, bar).dropped| == |Below(b, score, bar).dropped|
  {
    var p, q := Below(a, score, bar).dropped, Below(b, score, bar).dropped;
    forall x ensures multiset(p)[x] == multiset(q)[x] {
      BelowCounts(a, score, bar, x);
      BelowCounts(b, score, bar, x);
    }
    assert multiset(p) == multiset(q);
    assert |multiset(p)| == |p| && |multiset(q)| == |q|;
  }

  lemma {:induction false} BelowPrefix(s: seq<real>, i: nat, bar: real)
    requires i <= |s| && forall j :: i <= j < |s| ==> s[j] >= bar
    ensures |Below(s, x => x, bar).dropped| <= i
    decreases |s|
  {
    if |s| > 0 {
      BelowPrefix(s[..|s| - 1], if i < |s| then i else |s| - 1, bar);
    }
  }

  /**
   * The cut at a percentile: the bar is the score of some node, at most `i` nodes are dropped,
   * and no node with a maximal score is among them.
   */
  lemma BarIsFair<T>(s: seq<T>, score: T -> real, i: nat)
    requires i < |s|
    ensures var bar := SortedScores(s, score)[i]; var c := Below(s, score, bar);
            && |c.dropped| <= i && |c.kept| >= |s| - i
            && (exists x :: x in s && score(x) == bar)
            && (forall x :: x in s && (forall y :: y in s ==> score(y) <= score(x)) ==> x in c.kept)
  {
    var id := (x: real) => x;
    var all, sorted := Scores(s, score), SortedScores(s, score);
    var bar := sorted[i];
    var c := Below(s, score, bar);
    SortSorts(all, id);
    ScoresAre(s, score, bar);
    SameCount(all, sorted, id, bar);
    forall j | i <= j < |sorted| ensures sorted[j] >= bar {
      assert i < j ==> id(sorted[i]) <= id(sorted[j]);
    }
    BelowPrefix(sorted, i, bar);
    BelowSplits(s, score, bar);
    assert bar in multiset(sorted) && bar in all;
    var w :| w in s && score(w) == bar;
    forall x | x in s && (forall y :: y in s ==> score(y) <= score(x)) ensures x in c.kept {
      assert score(w) <= score(x);
      BelowCounts(s, score, bar, x);
      assert multiset(c.kept)[x] == multiset(s)[x];
      assert x in multiset(s) && x in multiset(c.kept);
    }
  }

  /** At least `n - ⌊p·n⌋` nodes stay, every maximum among them, and they score above the dropped. */
  lemma TopShareKeepsTop<T>(s: seq<T>, score: T -> real, p: real)
    requires 0.0 <= p < 1.0
    ensures var r := TopShare(s, score, p);
            && r.Ok?
            && |r.value.kept| >= |s| - CutIndex(|s|, p)
            && (s != [] ==> r.value.kept != [])
            && (forall x :: x in s && (forall y :: y in s ==> score(y) <= score(x)) ==> x in r.value.kept)
            && (forall x, y :: x in r.value.kept && y in r.value.dropped ==> score(x) > score(y))
  {
    if |s| > 1 {
      var i := CutIndex(|s|, p);
      BarIsFair(s, score, i);
      BelowSplits(s, score, SortedScores(s, score)[i]);
    }
  }

  /** How many elements score at most `v`. */
  function AtMost<T>(s: seq<T>, score: T -> real, v: real): nat {
    if s == [] then 0 else AtMost(s[..|s| - 1], score, v) + if score(s[|s| - 1]) <= v then 1 else 0
  }

  lemma {:induction false} AtMostScores<T>(s: seq<T>, score: T -> real, v: real)
    ensures AtMost(s, score, v) == AtMost(Scores(s, score), x => x, v)
  {
    if s != [] {
      var init := s[..|s| - 1];
      AtMostScores(init, score, v);
      assert Scores(s, score)[..|s| - 1] == Scores(init, score);
    }
  }

  /** The scores above `v` are those whose negation lies below `-v`. */
  lemma {:induction false} AtMostIsRest(s: seq<real>, v: real)
    ensures AtMost(s, x => x, v) + |Below(s, x => -x, -v).dropped| == |s|
  {
    if s != [] {
      AtMostIsRest(s[..|s| - 1], v);
    }
  }

  lemma {:induction false} AtMostOrdered(s: seq<real>, i: nat, v: real)
    requires Ordered(s, x => x)
    ensures i < |s| && s[i] <= v ==> AtMost(s, x => x, v) > i
    ensures i < |s| && s[i] > v ==> AtMost(s, x => x, v) <= i
    ensures AtMost(s, x => x, v) <= |s|
    decreases |s|
  {
    if s != [] {
      var n, id := |s| - 1, (x: real) => x;
      forall j, k | 0 <= j < k < |s| ensures s[j] <= s[k] {
        assert id(s[j]) <= id(s[k]);
      }
      assert Ordered(s[..n], x => x);
      if i < n {
        AtMostOrdered(s[..n], i, v);
        assert s[i] <= s[n];
      } else {
        AtMostOrdered(s[..n], 0, v);
        if i == n && s[n] <= v && n > 0 {
          AtMostOrdered(s[..n], n - 1, v);
        }
      }
    }
  }

  /** A score reaches the bar exactly when more than `i` scores are no higher. */
  lemma WhenBarIsReached<T>(s: seq<T>, score: T -> real, i: nat, v: real)
    requires i < |s|
    ensures v >= SortedScores(s, score)[i] <==> AtMost(s, score, v) > i
  {
    var id := (x: real) => x;
    var all, sorted := Scores(s, score), SortedScores(s, score);
    SortSorts(all, id);
    AtMostScores(s, score, v);
    AtMostIsRest(all, v);
    AtMostIsRest(sorted, v);
    SameCount(all, sorted, x => -x, -v);
    AtMostOrdered(sorted, i, v);
  }

  // ------------------------------------------------------------------ the policy

  /** The configured percentile may be 1.0, and then two or more live nodes are one index too few. */
  lemma WhenDecideFails<T>(c: Config, s: seq<T>, score: T -> real)
    requires ValidConfig(c)
    ensures Decide(c, s, score).Err? <==> c.rule.RelativePercentile? && c.percentile == 1.0 && |s| > 1
  {
    if c.rule.RelativePercentile? && |s| > 1 && c.percentile < 1.0 {
      TopShareKeepsTop(s, score, c.percentile);
    }
    if |s| > 1 && c.percentile == 1.0 {
      assert CutIndex(|s|, c.percentile) == |s|;
    }
  }

  /** The live nodes, repetitions included, are the kept and the dropped ones; no rule keeps a worse node. */
  lemma DecideSplits<T>(c: Config, s: seq<T>, score: T -> real)
    requires ValidConfig(c) && Decide(c, s, score).Ok?
    ensures var cut := Decide(c, s, score).value;
            && multiset(cut.kept) + multiset(cut.dropped) == multiset(s)
            && (forall x, y :: x in cut.kept && y in cut.dropped ==> score(x) >= score(y))
  {
    match c.rule {
      case FixedThreshold => BelowSplits(s, score, c.threshold);
      case RelativeTopK => BestOfKeepsBest(s, score, c.topK);
      case RelativePercentile =>
        if |s| > 1 {
          BelowSplits(s, score, SortedScores(s, score)[CutIndex(|s|, c.percentile)]);
        }
    }
  }

  /** Pruning empties a list only by a fixed threshold above every score. */
  lemma WhenNothingIsKept<T>(c: Config, s: seq<T>, score: T -> real)
    requires ValidConfig(c) && s != [] && Decide(c, s, score).Ok?
    ensures Decide(c, s, score).value.kept == [] <==>
            c.rule.FixedThreshold? && forall x <- s :: score(x) < c.threshold
  {
    match c.rule {
      case FixedThreshold => BelowSplits(s, score, c.threshold);
      case RelativeTopK => BestOfKeepsBest(s, score, c.topK);
      case RelativePercentile =>
        WhenDecideFails(c, s, score);
        if |s| > 1 {
          TopShareKeepsTop(s, score, c.percentile);
        }
    }
  }

  // ------------------------------------------------------------------ what each rule keeps

  lemma {:induction false} BelowIsSubsequence<T>(s: seq<T>, score: T -> real, bar: real)
    ensures Subsequence(Below(s, score, bar).kept, s) && Subsequence(Below(s, score, bar).dropped, s)
  {
    if s != [] {
      BelowIsSubsequence(s[..|s| - 1], score, bar);
    }
  }

  /** A fixed threshold keeps every node that reaches it, in list order. */
  lemma ThresholdKeeps<T>(c: Config, s: seq<T>, score: T -> real, x: T)
    requires ValidConfig(c) && c.rule.FixedThreshold?
    ensures var r := Decide(c, s, score);
            && r.Ok? && Subsequence(r.value.kept, s)
            && multiset(r.value.kept)[x] == if score(x) >= c.threshold then multiset(s)[x] else 0
  {
    BelowCounts(s, score, c.threshold, x);
    BelowIsSubsequence(s, score, c.threshold);
  }

  /** The best `topK` nodes stay, best first; a list of at most that many stays as it is. */
  lemma TopKKeeps<T>(c: Config, s: seq<T>, score: T -> real)
    requires ValidConfig(c) && c.rule.RelativeTopK?
    ensures var r := Decide(c, s, score);
            && r.Ok?
            && (|s| <= c.topK ==> r.value.kept == s)
            && (|s| > c.topK ==>
              && |r.value.kept| == c.topK
              && (forall i, j :: 0 <= i < j < c.topK ==> score(r.value.kept[i]) >= score(r.value.kept[j]))
              && (forall x, y :: x in r.value.kept && y in r.value.dropped ==> score(x) >= score(y)))
  {
    BestOfKeepsBest(s, score, c.topK);
    DescendingSorts(s, score);
  }

  lemma {:induction false} OwnSubsequence<T>(s: seq<T>)
    ensures Subsequence(s, s)
  {
    if s != [] {
      OwnSubsequence(s[..|s| - 1]);
    }
  }

  /** The nodes that reach the score at index `i` are those with more than `i` scores no higher. */
  lemma ShareKeeps<T>(s: seq<T>, score: T -> real, i: nat, x: T)
    requires i < |s|
    ensures var kept := Below(s, score, SortedScores(s, score)[i]).kept;
            && Subsequence(kept, s)
            && multiset(kept)[x] == if AtMost(s, score, score(x)) > i then multiset(s)[x] else 0
  {
    var bar := SortedScores(s, score)[i];
    WhenBarIsReached(s, score, i, score(x));
    BelowCounts(s, score, bar, x);
    BelowIsSubsequence(s, score, bar);
  }

  lemma PercentileCut<T>(c: Config, s: seq<T>, score: T -> real, cut: Cut<T>) returns (i: nat)
    requires ValidConfig(c) && c.rule.RelativePercentile? && Decide(c, s, score) == Ok(cut)
    ensures i == (|s| as real * c.percentile).Floor
    ensures if |s| <= 1 then cut.kept == s else i < |s| && cut == Below(s, score, SortedScores(s, score)[i])
  {
    i := CutIndex(|s|, c.percentile);
  }

  /** A node stays exactly when more than `⌊p·n⌋` of the `n` nodes, itself included, score no higher. */
  lemma PercentileKeeps<T>(c: Config, s: seq<T>, score: T -> real, cut: Cut<T>, x: T)
    requires ValidConfig(c) && c.rule.RelativePercentile? && Decide(c, s, score) == Ok(cut)
    ensures Subsequence(cut.kept, s)
    ensures multiset(cut.kept)[x] ==
            if |s| <= 1 || AtMost(s, score, score(x)) > (|s| as real * c.percentile).Floor then multiset(s)[x] else 0
  {
    var i := PercentileCut(c, s, score, cut);
    if |s| <= 1 {
      OwnSubsequence(s);
    } else {
      ShareKeeps(s, score, i, x);
    }
  }

  // ------------------------------------------------------------------ repeated references

  ghost predicate Distinct<T>(s: seq<T>) { forall i, j :: 0 <= i < j < |s| ==> s[i] != s[j] }

  lemma {:induction false} DistinctCounts<T>(s: seq<T>, x: T)
    requires Distinct(s)
    ensures multiset(s)[x] <= 1
  {
    if s != [] {
      assert s == [s[0]] + s[1..];
      DistinctCounts(s[1..], x);
      if s[0] == x {
        assert x !in s[1..];
      }
    }
  }

  /** A kept node is marked dead only when the list names it more than once. */
  lemma KeptIsNotDropped<T>(c: Config, s: seq<T>, score: T -> real)
    requires ValidConfig(c) && Decide(c, s, score).Ok? && Distinct(s)
    ensures forall x <- Decide(c, s, score).value.kept :: x !in Decide(c, s, score).value.dropped
  {
    var cut := Decide(c, s, score).value;
    DecideSplits(c, s, score);
    forall x <- cut.kept ensures x !in cut.dropped {
      DistinctCounts(s, x);
      assert multiset(cut.kept)[x] + multiset(cut.dropped)[x] == multiset(s)[x] <= 1;
      assert multiset(cut.kept)[x] > 0;
    }
  }

  /** The nodes that tie with `x`, in list order, and how many of them top-k keeps. */
  function Ties<T>(s: seq<T>, score: T -> real, x: T): seq<T> { OfKey(s, n => -score(n), -score(x)) }

  function KeptTies<T>(s: seq<T>, score: T -> real, k: nat, x: T): (m: nat)
    ensures m <= |Ties(s, score, x)|
  {
    TakenOf(s, n => -score(n), -score(x), k)
  }

  /** Top-k keeps the first of the nodes that tie, and drops the others. */
  lemma CutAmongTies<T>(s: seq<T>, score: T -> real, k: nat, x: T)
    ensures var c := BestOf(s, score, k);
            && Ties(c.kept, score, x) == Ties(s, score, x)[..KeptTies(s, score, k, x)]
            && Ties(c.dropped, score, x) == Ties(s, score, x)[KeptTies(s, score, k, x)..]
  {
    var key, v := (n: T) => -score(n), -score(x);
    var c := BestOf(s, score, k);
    TiesKeepOrder(s, score, k, v);
    assert |Ties(c.kept, score, x)| == KeptTies(s, score, k, x) by {
      if |s| <= k {
        KeysFit(s, key, v);
      } else {
        var d := SortBy(s, key);
        SortSorts(s, key);
        SortBefore(s, key, v);
        SortStable(s, key, v);
        CutTakes(d, key, v, k);
      }
    }
    var kept, dropped := Ties(c.kept, score, x), Ties(c.dropped, score, x);
    assert kept + dropped == Ties(s, score, x);
    assert (kept + dropped)[..|kept|] == kept && (kept + dropped)[|kept|..] == dropped;
  }

  /**
   Top-k both keeps a node and marks it dead exactly if the list names it on both sides of the cut
   among the nodes that tie with it.
   */
  lemma WhenKeptAndDropped<T>(s: seq<T>, score: T -> real, k: nat, x: T)
    ensures var c := BestOf(s, score, k); var m := KeptTies(s, score, k, x);
            x in c.kept && x in c.dropped <==> x in Ties(s, score, x)[..m] && x in Ties(s, score, x)[m..]
  {
    CutAmongTies(s, score, k, x);
    OfKeyMembers(BestOf(s, score, k).kept, n => -score(n), x);
    OfKeyMembers(BestOf(s, score, k).dropped, n => -score(n), x);
  }

  /** For instance a list of nothing but one node, one longer than k. */
  lemma RepeatedNodeIsBoth<T>(score: T -> real, k: nat, x: T)
    requires k >= 1
    ensures var c := BestOf(seq(k + 1, _ => x), score, k); x in c.kept && x in c.dropped
  {
    var s := seq(k + 1, _ => x);
    var c := BestOf(s, score, k);
    BestOfKeepsBest(s, score, k);
    assert |multiset(c.kept) + multiset(c.dropped)| == |multiset(s)|;
    assert |c.kept| + |c.dropped| == k + 1;
    assert forall y :: y in multiset(s) ==> y == x;
    assert c.kept[0] in multiset(c.kept) + multiset(c.dropped);
    assert c.dropped[0] in multiset(c.kept) + multiset(c.dropped);
  }

  /** Of the rules only top-k can both keep and drop a node, since it cuts by position. */
  lemma ScoreCutsAreClean<T>(c: Config, s: seq<T>, score: T -> real)
    requires ValidConfig(c) && Decide(c, s, score).Ok? && !c.rule.RelativeTopK?
    ensures forall x <- Decide(c, s, score).value.kept :: x !in Decide(c, s, score).value.dropped
  {
    match c.rule {
      case FixedThreshold => BelowSplits(s, score, c.threshold);
      case RelativePercentile =>
        if |s| > 1 {
          BelowSplits(s, score, SortedScores(s, score)[CutIndex(|s|, c.percentile)]);
        }
    }
  }
}
