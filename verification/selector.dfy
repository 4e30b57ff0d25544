/** The strategy selector: scores by attributes, a weighted mean, and a ranking. */
module Selecting {
  import opened ByteOrder
  import opened Ranking
  import opened Sizing

  const SELECT_LIMIT := 3

  datatype Attributes = Attributes(
    size: int,
    requireReliability: bool,
    requireRealtime: bool,
    priority: int,
    canDelay: bool,
    networkCondition: int,
    enableCompression: bool,
    enableFlowControl: bool,
    mode: string)

  /** A scorer: its weight, and the score it gives a strategy. */
  datatype Scorer = Scorer(name: string, weight: int, score: (TransportStrategy, Attributes) -> int)

  /** Go's integer division, which truncates towards zero. */
  function Div(a: int, b: int): int
    requires b != 0
  {
    if (a >= 0) == (b > 0) then (if a >= 0 then a / b else (-a) / (-b))
    else -((if a >= 0 then a else -a) / (if b > 0 then b else -b))
  }

  // ----- the weighted mean -----

  function TotalWeight(scorers: seq<Scorer>): int {
    if scorers == [] then 0 else TotalWeight(scorers[..|scorers| - 1]) + scorers[|scorers| - 1].weight
  }

  function TotalScore(scorers: seq<Scorer>, s: TransportStrategy, a: Attributes): int {
    if scorers == [] then 0
    else
      var last := scorers[|scorers| - 1];
      TotalScore(scorers[..|scorers| - 1], s, a) + last.score(s, a) * last.weight
  }

  function Evaluate(scorers: seq<Scorer>, s: TransportStrategy, a: Attributes): int {
    if TotalWeight(scorers) == 0 then
      if a.size >= s.min && (s.max == 0 || a.size < s.max) then 80 else 30
    else Div(TotalScore(scorers, s, a), TotalWeight(scorers))
  }

  method EvaluateStrategy(scorers: seq<Scorer>, strategy: TransportStrategy, attrs: Attributes) returns (score: int)
    ensures score == Evaluate(scorers, strategy, attrs)
  {
    var totalScore, totalWeight := 0, 0;
    for i := 0 to |scorers|
      invariant totalWeight == TotalWeight(scorers[..i])
      invariant totalScore == TotalScore(scorers[..i], strategy, attrs)
    {
      assert scorers[..i + 1][..i] == scorers[..i];
      totalScore := totalScore + scorers[i].score(strategy, attrs) * scorers[i].weight;
      totalWeight := totalWeight + scorers[i].weight;
    }
    assert scorers[..|scorers|] == scorers;
    if totalWeight == 0 {
      if attrs.size >= strategy.min && (strategy.max == 0 || attrs.size < strategy.max) {
        return 80;
      }
      return 30;
    }
    return Div(totalScore, totalWeight);
  }

  /** All scores lie between two bounds. */
  predicate Bounded(scorers: seq<Scorer>, s: TransportStrategy, a: Attributes, low: int, high: int) {
    forall i :: 0 <= i < |scorers| ==> low <= scorers[i].score(s, a) <= high
  }

  lemma {:induction false} TotalBounded(scorers: seq<Scorer>, s: TransportStrategy, a: Attributes, low: int, high: int)
    requires Bounded(scorers, s, a, low, high)
    requires forall i :: 0 <= i < |scorers| ==> scorers[i].weight >= 0
    ensures TotalWeight(scorers) >= 0
    ensures low * TotalWeight(scorers) <= TotalScore(scorers, s, a) <= high * TotalWeight(scorers)
  {
    if scorers != [] {
      var n := |scorers| - 1;
      TotalBounded(scorers[..n], s, a, low, high);
      Scaled(low, scorers[n].score(s, a), high, scorers[n].weight);
      assert low * (TotalWeight(scorers[..n]) + scorers[n].weight) ==
             low * TotalWeight(scorers[..n]) + low * scorers[n].weight;
      assert high * (TotalWeight(scorers[..n]) + scorers[n].weight) ==
             high * TotalWeight(scorers[..n]) + high * scorers[n].weight;
    }
  }

  lemma Scaled(low: int, x: int, high: int, w: int)
    requires low <= x <= high && w >= 0
    ensures low * w <= x * w <= high * w
  {
  }

  /** The weighted mean of scores that are not negative lies between the least and the greatest of them. */
  lemma WeightedMean(scorers: seq<Scorer>, s: TransportStrategy, a: Attributes, low: nat, high: nat)
    requires Bounded(scorers, s, a, low, high)
    requires forall i :: 0 <= i < |scorers| ==> scorers[i].weight >= 0
    requires TotalWeight(scorers) > 0
    ensures low <= Evaluate(scorers, s, a) <= high
  {
    TotalBounded(scorers, s, a, low, high);
    Quotient(TotalScore(scorers, s, a), TotalWeight(scorers), low, high);
  }

  lemma Quotient(n: int, d: int, low: nat, high: nat)
    requires d > 0 && low * d <= n <= high * d
    ensures low <= Div(n, d) <= high
  {
    assert low * d >= 0;
    var q := n / d;
    assert n == d * q + n % d;
    if q < low {
      TimesLess(q, low, d);
    }
    if q > high {
      TimesLess(high, q, d);
    }
  }

  /** The sum of products, and of numbers: what a weighted mean is made of. */
  function Dot(xs: seq<int>, ys: seq<int>): int
    requires |xs| == |ys|
  {
    if xs == [] then 0 else xs[0] * ys[0] + Dot(xs[1..], ys[1..])
  }

  function Sum(xs: seq<int>): int {
    if xs == [] then 0 else xs[0] + Sum(xs[1..])
  }

  lemma {:induction false} DotAppend(xs: seq<int>, ys: seq<int>, x: int, y: int)
    requires |xs| == |ys|
    ensures Dot(xs + [x], ys + [y]) == Dot(xs, ys) + x * y
    ensures Sum(ys + [y]) == Sum(ys) + y
  {
    if xs == [] {
      assert xs + [x] == [x] && ys + [y] == [y];
    } else {
      assert (xs + [x])[1..] == xs[1..] + [x] && (ys + [y])[1..] == ys[1..] + [y];
      DotAppend(xs[1..], ys[1..], x, y);
    }
  }

  function Weights(scorers: seq<Scorer>): seq<int> {
    seq(|scorers|, i requires 0 <= i < |scorers| => scorers[i].weight)
  }

  function Ratings(scorers: seq<Scorer>, s: TransportStrategy, a: Attributes): seq<int> {
    seq(|scorers|, i requires 0 <= i < |scorers| => scorers[i].score(s, a))
  }

  lemma {:induction false} TotalsAreSums(scorers: seq<Scorer>, s: TransportStrategy, a: Attributes)
    ensures TotalWeight(scorers) == Sum(Weights(scorers))
    ensures TotalScore(scorers, s, a) == Dot(Ratings(scorers, s, a), Weights(scorers))
  {
    if scorers != [] {
      var n := |scorers| - 1;
      var last := scorers[n];
      TotalsAreSums(scorers[..n], s, a);
      assert Weights(scorers) == Weights(scorers[..n]) + [last.weight];
      assert Ratings(scorers, s, a) == Ratings(scorers[..n], s, a) + [last.score(s, a)];
      DotAppend(Ratings(scorers[..n], s, a), Weights(scorers[..n]), last.score(s, a), last.weight);
    }
  }

  /** The rating is the weighted mean of all scores, rounded down, if neither the scores' sum nor the weights' is negative. */
  lemma MeanOfAll(scorers: seq<Scorer>, s: TransportStrategy, a: Attributes)
    requires Sum(Weights(scorers)) > 0 && Dot(Ratings(scorers, s, a), Weights(scorers)) >= 0
    ensures var mean, all, total := Evaluate(scorers, s, a), Dot(Ratings(scorers, s, a), Weights(scorers)),
                                    Sum(Weights(scorers));
            mean * total <= all < (mean + 1) * total
  {
    hide Sum, Dot;
    TotalsAreSums(scorers, s, a);
    var all, total := TotalScore(scorers, s, a), TotalWeight(scorers);
    assert all == total * (all / total) + all % total;
  }

  /** Without any weight, a strategy is rated by whether its range covers the size. */
  lemma NoWeights(scorers: seq<Scorer>, s: TransportStrategy, a: Attributes)
    requires Sum(Weights(scorers)) == 0
    ensures Evaluate(scorers, s, a) == if s.Covers(a.size) then 80 else 30
  {
    TotalsAreSums(scorers, s, a);
  }

  /** What one scorer contributes: its score times its weight, and its weight. */
  lemma {:induction false} OneScorer(xs: seq<int>, ys: seq<int>, i: nat, x: int, y: int)
    requires |xs| == |ys| && i < |xs|
    ensures Dot(xs[i := x], ys[i := y]) == Dot(xs, ys) - xs[i] * ys[i] + x * y
    ensures Sum(ys[i := y]) == Sum(ys) - ys[i] + y
  {
    if i > 0 {
      assert xs[i := x][1..] == xs[1..][i - 1 := x] && ys[i := y][1..] == ys[1..][i - 1 := y];
      OneScorer(xs[1..], ys[1..], i - 1, x, y);
    }
  }

  // ----- the size score -----

  function Abs(x: int): nat {
    if x < 0 then -x else x
  }

  function PositionScore(min: int, max: int, size: int): int
    requires min <= size && (max == 0 || size < max)
  {
    if max == 0 then
      if size >= min * 2 then 100 else 80 + Div((size - min) * 20, min)
    else
      var score := 100 - Div(Abs(size - (min + Div(max - min, 2))) * 40, max - min);
      if score < 60 then 60 else score
  }

  function DistanceScore(min: int, max: int, size: int): int
    requires max - min + 1 != 0
  {
    var distance := if size < min then min - size else size - max;
    var score := 40 - Div(distance * 40, max - min + 1);
    if score < 0 then 0 else score
  }

  /** What the size score divides by, in the branch that is taken; 1 if it does not divide. */
  function Divisor(s: TransportStrategy, size: int): int {
    if !s.Covers(size) then s.max - s.min + 1
    else if s.max != 0 then s.max - s.min
    else if size >= s.min * 2 then 1
    else s.min
  }

  /** The score by size. A divisor of zero makes the source panic. */
  function SizeScore(s: TransportStrategy, size: int): int
    requires Divisor(s, size) != 0
  {
    if size >= s.min && (s.max == 0 || size < s.max) then PositionScore(s.min, s.max, size)
    else DistanceScore(s.min, s.max, size)
  }

  /** It divides by zero exactly for a size outside of a range whose upper bound is one below its lower. */
  lemma DividesByZero(s: TransportStrategy, size: int)
    ensures Divisor(s, size) == 0 <==> s.max == s.min - 1 && !s.Covers(size)
  {
  }

  /** A range without upper bound has that defect if it starts at 1: size 0 divides by zero. */
  lemma ZeroDivides(name: string)
    ensures Divisor(TransportStrategy(name, 1, 0), 0) == 0
  {
  }

  /** The size scorer. Its value where the source panics stands for nothing. */
  function SizeScorer(weight: int): Scorer {
    Scorer("SizeBasedScorer", weight, (s: TransportStrategy, a: Attributes) =>
             if Divisor(s, a.size) == 0 then 0 else SizeScore(s, a.size))
  }

  /**
   * With the size scorer alone, a strategy is rated by its size score; so with the five default
   * strategies, none of which ever divides by zero, a bounded one that covers the size is rated above
   * every bounded one that does not.
   */
  lemma SizeDecides(weight: int, s: TransportStrategy, t: TransportStrategy, a: Attributes)
    requires weight > 0 && s in DEFAULTS && t in DEFAULTS
    ensures Divisor(s, a.size) != 0 && Evaluate([SizeScorer(weight)], s, a) == SizeScore(s, a.size)
    ensures s != HUGE && t != HUGE && s.Covers(a.size) && !t.Covers(a.size) ==>
              Evaluate([SizeScorer(weight)], t, a) < Evaluate([SizeScorer(weight)], s, a)
  {
    hide SizeScore, Evaluate;
    RatedAlone(weight, s, a);
    RatedAlone(weight, t, a);
    if s != HUGE && t != HUGE {
      SizeScoreSeparates(s, a.size);
      SizeScoreSeparates(t, a.size);
    }
  }

  lemma RatedAlone(weight: int, s: TransportStrategy, a: Attributes)
    requires weight > 0 && Divisor(s, a.size) != 0
    ensures Evaluate([SizeScorer(weight)], s, a) == SizeScore(s, a.size)
  {
    hide SizeScore;
    var scorers := [SizeScorer(weight)];
    assert scorers[..0] == [];
    assert TotalWeight(scorers) == weight;
    var score := SizeScore(s, a.size);
    assert TotalScore(scorers, s, a) == score * weight;
    WholeQuotient(score, weight);
  }

  lemma WholeQuotient(n: int, d: int)
    requires d > 0
    ensures Div(n * d, d) == n
  {
    if n >= 0 {
      DivMod(n * d, d, n, 0);
      assert n * d >= 0;
    } else {
      DivMod(-n * d, d, -n, 0);
      assert n * d < 0;
    }
  }

  /** Inside a bounded range the score is at least 80, outside of it at most 40. */
  lemma SizeScoreSeparates(s: TransportStrategy, size: int)
    requires 0 <= s.min < s.max
    ensures if s.Covers(size) then 80 <= SizeScore(s, size) <= 100 else 0 <= SizeScore(s, size) <= 40
  {
    var range := s.max - s.min;
    if s.Covers(size) {
      var distance := Abs(size - (s.min + range / 2));
      assert 2 * distance <= range;
      Quotient(distance * 40, range, 0, 20);
    } else {
      var distance := if size < s.min then s.min - size else size - s.max;
      assert distance * 40 >= 0;
      DivNonNegative(distance * 40, range + 1);
    }
  }

  /** The score inside a bounded range, by the distance from its middle. */
  lemma ScoreInside(s: TransportStrategy, size: int)
    requires 0 <= s.min < s.max && s.Covers(size)
    ensures var distance := Abs(size - (s.min + (s.max - s.min) / 2));
            && 2 * distance <= s.max - s.min
            && SizeScore(s, size) == 100 - distance * 40 / (s.max - s.min)
  {
    var range := s.max - s.min;
    var distance := Abs(size - (s.min + range / 2));
    assert 2 * distance <= range;
    Quotient(distance * 40, range, 0, 20);
  }

  /** Inside a bounded range, a size nearer to its middle scores no less; the middle scores 100, and the lower bound 80 or 81 if the range has 20 sizes. */
  lemma MiddleScoresBest(s: TransportStrategy, a: int, b: int)
    requires 0 <= s.min < s.max && s.Covers(a) && s.Covers(b)
    ensures var middle := s.min + (s.max - s.min) / 2;
            && (Abs(a - middle) <= Abs(b - middle) ==> SizeScore(s, b) <= SizeScore(s, a))
            && (a == middle ==> SizeScore(s, a) == 100)
            && (a == s.min && s.max - s.min >= 20 ==> 80 <= SizeScore(s, a) <= 81)
  {
    hide SizeScore;
    var range := s.max - s.min;
    var middle := s.min + range / 2;
    var x, y := Abs(a - middle), Abs(b - middle);
    ScoreInside(s, a);
    ScoreInside(s, b);
    if x <= y {
      QuotientGrows(x * 40, y * 40, range);
    }
    SmallQuotient(0, range);
    if a == s.min && range >= 20 {
      LowerBoundScore(x, range);
    }
  }

  lemma LowerBoundScore(x: nat, range: nat)
    requires range >= 20 && range - 1 <= 2 * x <= range
    ensures 19 <= x * 40 / range <= 20
  {
    QuotientGrows(19 * range, x * 40, range);
    QuotientGrows(x * 40, 20 * range, range);
    DivMod(19 * range, range, 19, 0);
    DivMod(20 * range, range, 20, 0);
  }

  /** The score outside of a bounded range, by the distance from it. */
  lemma ScoreOutside(s: TransportStrategy, size: int)
    requires 0 <= s.min < s.max && !s.Covers(size)
    ensures var distance := if size < s.min then s.min - size else size - s.max;
            && distance >= 0
            && SizeScore(s, size) == if distance * 40 / (s.max - s.min + 1) > 40 then 0 else 40 - distance * 40 / (s.max - s.min + 1)
  {
    var distance := if size < s.min then s.min - size else size - s.max;
    assert distance * 40 >= 0;
  }

  /** Outside of a bounded range, a size that is farther from it scores no more; from about one range away it scores 0. */
  lemma FartherScoresLess(s: TransportStrategy, a: int, b: int)
    requires 0 <= s.min < s.max && !s.Covers(a) && !s.Covers(b)
    ensures var x, y := if a < s.min then s.min - a else a - s.max, if b < s.min then s.min - b else b - s.max;
            && (x <= y ==> SizeScore(s, b) <= SizeScore(s, a))
            && (x == 0 ==> SizeScore(s, a) == 40)
            && (x > s.max - s.min ==> SizeScore(s, a) == 0)
  {
    hide SizeScore;
    var x, y := if a < s.min then s.min - a else a - s.max, if b < s.min then s.min - b else b - s.max;
    var d := s.max - s.min + 1;
    ScoreOutside(s, a);
    ScoreOutside(s, b);
    if x <= y {
      QuotientGrows(x * 40, y * 40, d);
    }
    SmallQuotient(0, d);
    if x >= d {
      QuotientGrows(40 * d, x * 40, d);
      DivMod(40 * d, d, 40, 0);
    }
  }

  lemma QuotientGrows(a: nat, b: nat, d: int)
    requires d > 0 && a <= b
    ensures a / d <= b / d
  {
    if b / d < a / d {
      TimesLess(b / d, a / d, d);
    }
  }

  lemma DivNonNegative(n: nat, d: int)
    requires d > 0
    ensures Div(n, d) >= 0
  {
  }

  /**
   * A range without upper bound is told from one with an upper bound by max = 0, and this 0 enters the
   * distance formula: outside of such a range the score grows with the distance. It stays at most 40
   * exactly for sizes that are nearly in the range, and the huge strategy scores 80 for size 0.
   */
  lemma UnboundedOutside(s: TransportStrategy, size: nat)
    requires s.max == 0 && size < s.min
    ensures Divisor(s, size) == 0 <==> s.min == 1
    ensures s.min >= 2 ==>
              && SizeScore(s, size) == 40 + (s.min - size) * 40 / (s.min - 1)
              && (SizeScore(s, size) <= 40 <==> (s.min - size) * 40 < s.min - 1)
  {
    if s.min >= 2 {
      var n, d := (s.min - size) * 40, s.min - 1;
      if n < d {
        SmallQuotient(n, d);
      } else {
        LargeQuotient(n, d);
      }
    }
  }

  lemma SmallQuotient(n: nat, d: int)
    requires n < d
    ensures n / d == 0
  {
  }

  lemma LargeQuotient(n: nat, d: int)
    requires 0 < d <= n
    ensures n / d >= 1
  {
  }

  lemma HugeScoresTiny()
    ensures SizeScore(HUGE, 0) == 80 && SizeScore(TINY, 0) == 80
  {
  }

  // ----- the ranking -----

  datatype StrategyScore = StrategyScore(strategy: TransportStrategy, score: int)

  datatype Selection = Selection(
    strategy: TransportStrategy,
    params: TransportParams,
    score: int,
    alternatives: seq<TransportStrategy>)

  /** The parameters for the size, with what the attributes ask for. */
  function AdaptedParams(a: Attributes): TransportParams {
    var p := OptimizeParams(a.size);
    var reliable := if a.requireReliability then p.(enableChecksum := true, maxRetries := 5) else p;
    var timely := if a.requireRealtime then
                    reliable.(noBlockDelay := true, readTimeout := 10 * SECONDS, writeTimeout := 10 * SECONDS)
                  else reliable;
    if a.mode == "stream" then timely.(useChunking := true) else timely
  }

  /**
   * What the attributes ask for is granted, and nothing else changes: five retries for reliability,
   * 10 s and no delay for realtime, chunks for a stream, at any size.
   */
  lemma AsksGranted(a: Attributes)
    ensures var p, q := OptimizeParams(a.size), AdaptedParams(a);
            && q.maxRetries == (if a.requireReliability then 5 else p.maxRetries)
            && q.enableChecksum == (a.requireReliability || p.enableChecksum)
            && q.noBlockDelay == (a.requireRealtime || p.noBlockDelay)
            && q.readTimeout == (if a.requireRealtime then 10_000_000_000 else p.readTimeout)
            && q.writeTimeout == (if a.requireRealtime then 10_000_000_000 else p.writeTimeout)
            && q.useChunking == (a.mode == "stream" || p.useChunking)
            && q.chunkSize == p.chunkSize && q.readBufferSize == p.readBufferSize && q.writeBufferSize == p.writeBufferSize
  {
  }

  /** Every strategy with its score. */
  function Scores(strategies: seq<TransportStrategy>, scorers: seq<Scorer>, a: Attributes): (r: seq<StrategyScore>)
    ensures |r| == |strategies|
  {
    if strategies == [] then []
    else
      var n := |strategies| - 1;
      Scores(strategies[..n], scorers, a) + [StrategyScore(strategies[n], Evaluate(scorers, strategies[n], a))]
  }

  function Descending(s: StrategyScore): int {
    -s.score
  }

  class StrategySelector {
    var strategies: seq<TransportStrategy>
    var scorers: seq<Scorer>
    const sizer: MessageSizer
    const cacheKey: Attributes -> string
    var selectionCache: map<string, Selection>
    var totalSelections: nat
    var cacheHits: nat

    constructor (sizer: MessageSizer, cacheKey: Attributes -> string)
      ensures strategies == [] && scorers == [] && selectionCache == map[] && totalSelections == cacheHits == 0
      ensures this.sizer == sizer && this.cacheKey == cacheKey
    {
      strategies, scorers, selectionCache, totalSelections, cacheHits := [], [], map[], 0, 0;
      this.sizer, this.cacheKey := sizer, cacheKey;
    }

    method RegisterStrategy(strategy: TransportStrategy)
      requires DistinctNames(strategies)
      modifies this`strategies
      ensures DistinctNames(strategies) && strategy in strategies
      ensures if exists i :: 0 <= i < |old(strategies)| && old(strategies)[i].name == strategy.name then
                exists i :: 0 <= i < |old(strategies)| && old(strategies)[i].name == strategy.name
                            && strategies == old(strategies)[i := strategy]
              else strategies == old(strategies) + [strategy]
    {
      var i := 0;
      while i < |strategies|
        invariant 0 <= i <= |strategies|
        invariant forall k :: 0 <= k < i ==> strategies[k].name != strategy.name
      {
        if strategies[i].name == strategy.name {
          strategies := strategies[i := strategy];
          assert strategies[i] == strategy;
          return;
        }
        i := i + 1;
      }
      strategies := strategies + [strategy];
    }

    /**
     * SelectBestStrategy. A cached selection is repeated. Otherwise, with strategies registered, the
     * ranking is a permutation of all scores in which none is greater than the one before; the first
     * is selected and at most two more are its alternatives. The result is cached either way.
     */
    method SelectBestStrategy(attrs: Attributes) returns (r: Selection, ghost ranking: seq<StrategyScore>)
      modifies this`selectionCache, this`totalSelections, this`cacheHits
      ensures totalSelections == old(totalSelections) + 1
      ensures cacheKey(attrs) in old(selectionCache) ==>
                && r == old(selectionCache)[cacheKey(attrs)]
                && selectionCache == old(selectionCache) && cacheHits == old(cacheHits) + 1
      ensures cacheKey(attrs) !in old(selectionCache) ==>
                && selectionCache == old(selectionCache)[cacheKey(attrs) := r] && cacheHits == old(cacheHits)
                && (strategies == [] ==>
                      r == Selection(Select(sizer.strategies, attrs.size), OptimizeParams(attrs.size), 75, []))
                && (strategies != [] ==>
                      && multiset(ranking) == multiset(Scores(strategies, scorers, attrs))
                      && Sorted(ranking, Descending)
                      && SelectedFrom(r, ranking)
                      && r.params == AdaptedParams(attrs))
    {
      ranking := [];
      totalSelections := totalSelections + 1;
      var key := cacheKey(attrs);
      if key in selectionCache {
        cacheHits := cacheHits + 1;
        return selectionCache[key], [];
      }
      if strategies == [] {
        var fallback := sizer.SelectStrategy(attrs.size);
        r := Selection(fallback, OptimizeParams(attrs.size), 75, []);
      } else {
        r, ranking := Rank(attrs);
      }
      selectionCache := selectionCache[key := r];
    }

    method Rank(attrs: Attributes) returns (r: Selection, ghost ranking: seq<StrategyScore>)
      requires strategies != []
      ensures multiset(ranking) == multiset(Scores(strategies, scorers, attrs))
      ensures Sorted(ranking, Descending)
      ensures SelectedFrom(r, ranking)
      ensures r.params == AdaptedParams(attrs)
    {
      var scores: seq<StrategyScore> := [];
      for i := 0 to |strategies|
        invariant scores == Scores(strategies[..i], scorers, attrs)
      {
        var score := EvaluateStrategy(scorers, strategies[i], attrs);
        assert strategies[..i + 1][..i] == strategies[..i];
        scores := scores + [StrategyScore(strategies[i], score)];
      }
      assert strategies[..|strategies|] == strategies;
      var sorted := ExchangeSort(scores, Descending);
      ranking := sorted;
      var alternatives: seq<TransportStrategy> := [];
      var i := 1;
      while i < |sorted| && i < SELECT_LIMIT
        invariant 1 <= i <= |sorted| && i <= SELECT_LIMIT
        invariant |alternatives| == i - 1
        invariant forall k :: 0 <= k < |alternatives| ==> alternatives[k] == sorted[k + 1].strategy
      {
        alternatives := alternatives + [sorted[i].strategy];
        i := i + 1;
      }
      r := Selection(sorted[0].strategy, AdaptedParams(attrs), sorted[0].score, alternatives);
    }
  }

  /** The selection takes the first of a ranking, and the next two, or as many as there are, as alternatives. */
  predicate SelectedFrom(r: Selection, ranking: seq<StrategyScore>) {
    && ranking != []
    && r.strategy == ranking[0].strategy && r.score == ranking[0].score
    && |r.alternatives| == (if |ranking| < SELECT_LIMIT then |ranking| else SELECT_LIMIT) - 1
    && forall k :: 0 <= k < |r.alternatives| ==> r.alternatives[k] == ranking[k + 1].strategy
  }

  lemma {:induction false} ScoresMember(strategies: seq<TransportStrategy>, scorers: seq<Scorer>, a: Attributes, i: nat)
    requires i < |strategies|
    ensures Scores(strategies, scorers, a)[i] == StrategyScore(strategies[i], Evaluate(scorers, strategies[i], a))
  {
    var n := |strategies| - 1;
    if i < n {
      ScoresMember(strategies[..n], scorers, a, i);
    }
  }

  /** The strategies of a ranking. */
  function Ranked(ranking: seq<StrategyScore>): (r: seq<TransportStrategy>)
    ensures |r| == |ranking| && forall i :: 0 <= i < |r| ==> r[i] == ranking[i].strategy
  {
    if ranking == [] then [] else [ranking[0].strategy] + Ranked(ranking[1..])
  }

  lemma {:induction false} RankedAppend(a: seq<StrategyScore>, b: seq<StrategyScore>)
    ensures Ranked(a + b) == Ranked(a) + Ranked(b)
  {
    if a == [] {
      assert a + b == b;
    } else {
      assert (a + b)[1..] == a[1..] + b;
      RankedAppend(a[1..], b);
    }
  }

  lemma WithoutOne<T>(a: seq<T>, left: seq<T>, x: T, right: seq<T>)
    requires a != [] && a[0] == x && multiset(a) == multiset(left + ([x] + right))
    ensures multiset(a[1..]) == multiset(left + right)
  {
    assert a == [x] + a[1..];
    assert multiset(a) == multiset{x} + multiset(a[1..]);
    assert multiset(left + ([x] + right)) == multiset(left) + (multiset{x} + multiset(right));
    assert multiset(a[1..]) == multiset(a) - multiset{x};
  }

  lemma {:induction false} RankedPermuted(a: seq<StrategyScore>, b: seq<StrategyScore>)
    requires multiset(a) == multiset(b)
    ensures multiset(Ranked(a)) == multiset(Ranked(b))
  {
    hide Ranked;
    if a == [] {
      assert b == [] by {
        assert |multiset(b)| == 0;
      }
    } else {
      assert a[0] in multiset(b);
      var k :| 0 <= k < |b| && b[k] == a[0];
      var left, right := b[..k], b[k + 1..];
      assert b == left + ([a[0]] + right);
      WithoutOne(a, left, a[0], right);
      RankedPermuted(a[1..], left + right);
      RankedAppend(left, right);
      RankedAppend(left, [a[0]] + right);
      RankedAppend([a[0]], right);
      RankedFirst(a);
      WithOneMore(Ranked(a[1..]), Ranked(left), a[0].strategy, Ranked(right));
    }
  }

  lemma WithOneMore<T>(a: seq<T>, left: seq<T>, x: T, right: seq<T>)
    requires multiset(a) == multiset(left + right)
    ensures multiset([x] + a) == multiset(left + ([x] + right))
  {
    assert multiset([x] + a) == multiset{x} + multiset(a);
    assert multiset(left + ([x] + right)) == multiset(left) + (multiset{x} + multiset(right));
    assert multiset(left + right) == multiset(left) + multiset(right);
  }

  lemma RankedFirst(ranking: seq<StrategyScore>)
    requires ranking != []
    ensures Ranked(ranking) == [ranking[0].strategy] + Ranked(ranking[1..])
    ensures Ranked([ranking[0]]) == [ranking[0].strategy]
  {
  }

  lemma {:induction false} ScoresRanked(strategies: seq<TransportStrategy>, scorers: seq<Scorer>, a: Attributes)
    ensures Ranked(Scores(strategies, scorers, a)) == strategies
  {
    if strategies != [] {
      var n := |strategies| - 1;
      ScoresRanked(strategies[..n], scorers, a);
      RankedAppend(Scores(strategies[..n], scorers, a),
                   [StrategyScore(strategies[n], Evaluate(scorers, strategies[n], a))]);
    }
  }

  /** Each entry of a permutation of the scores has the score of its strategy. */
  lemma OwnScore(strategies: seq<TransportStrategy>, scorers: seq<Scorer>, a: Attributes, ranking: seq<StrategyScore>,
                 i: nat)
    requires multiset(ranking) == multiset(Scores(strategies, scorers, a)) && i < |ranking|
    ensures ranking[i].score == Evaluate(scorers, ranking[i].strategy, a)
  {
    var scores := Scores(strategies, scorers, a);
    assert ranking[i] in multiset(scores);
    var k :| 0 <= k < |scores| && scores[k] == ranking[i];
    ScoresMember(strategies, scorers, a, k);
  }

  /**
   * The selected strategy, its alternatives, and the rest are all the registered strategies; there are
   * two alternatives, or as many as there are; and none of the rest, nor a later one of the others,
   * scores more than one before it.
   */
  lemma AlternativesAreNext(strategies: seq<TransportStrategy>, scorers: seq<Scorer>, a: Attributes,
                            ranking: seq<StrategyScore>, r: Selection)
    requires multiset(ranking) == multiset(Scores(strategies, scorers, a))
    requires Sorted(ranking, Descending) && SelectedFrom(r, ranking)
    ensures |r.alternatives| == if |strategies| < 3 then |strategies| - 1 else 2
    ensures exists rest: seq<TransportStrategy> ::
              var all := [r.strategy] + r.alternatives + rest;
              && multiset(all) == multiset(strategies)
              && forall i, j :: 0 <= i < j < |all| && i <= |r.alternatives| ==>
                   Evaluate(scorers, all[j], a) <= Evaluate(scorers, all[i], a)
  {
    hide Scores, Evaluate, Ranked, Sorted;
    var scores := Scores(strategies, scorers, a);
    RankedPermuted(ranking, scores);
    ScoresRanked(strategies, scorers, a);
    assert |ranking| == |multiset(ranking)| == |multiset(scores)| == |scores|;
    var m := 1 + |r.alternatives|;
    var all, rest := Ranked(ranking), Ranked(ranking)[m..];
    assert all == [r.strategy] + r.alternatives + rest;
    forall i, j | 0 <= i < j < |all| ensures Evaluate(scorers, all[j], a) <= Evaluate(scorers, all[i], a) {
      LaterScoresLess(strategies, scorers, a, ranking, i, j);
    }
  }

  lemma LaterScoresLess(strategies: seq<TransportStrategy>, scorers: seq<Scorer>, a: Attributes,
                        ranking: seq<StrategyScore>, i: nat, j: nat)
    requires multiset(ranking) == multiset(Scores(strategies, scorers, a)) && Sorted(ranking, Descending)
    requires i < j < |ranking|
    ensures Evaluate(scorers, ranking[j].strategy, a) <= Evaluate(scorers, ranking[i].strategy, a)
  {
    OwnScore(strategies, scorers, a, ranking, i);
    OwnScore(strategies, scorers, a, ranking, j);
    assert Descending(ranking[i]) <= Descending(ranking[j]);
  }

  /**
   * What is selected from a sorted permutation of the scores is one of the strategies, with its own
   * score, and no strategy scores more.
   */
  lemma BestIsGreatest(strategies: seq<TransportStrategy>, scorers: seq<Scorer>, a: Attributes, ranking: seq<StrategyScore>,
                       r: Selection)
    requires multiset(ranking) == multiset(Scores(strategies, scorers, a))
    requires Sorted(ranking, Descending) && SelectedFrom(r, ranking)
    ensures r.strategy in strategies && r.score == Evaluate(scorers, r.strategy, a)
    ensures forall s :: s in strategies ==> Evaluate(scorers, s, a) <= r.score
  {
    var scores := Scores(strategies, scorers, a);
    assert ranking[0] in multiset(scores);
    var k :| 0 <= k < |scores| && scores[k] == ranking[0];
    ScoresMember(strategies, scorers, a, k);
    forall s | s in strategies ensures Evaluate(scorers, s, a) <= r.score {
      var i :| 0 <= i < |strategies| && strategies[i] == s;
      ScoresMember(strategies, scorers, a, i);
      assert scores[i] in multiset(ranking);
      var m :| 0 <= m < |ranking| && ranking[m] == scores[i];
      assert Descending(ranking[0]) <= Descending(ranking[m]);
    }
  }
}
