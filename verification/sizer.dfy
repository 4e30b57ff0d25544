/** The message sizer: which strategy and which parameters a message of a given size gets. */
module Sizing {
  import opened ByteOrder
  import opened IO
  import opened Frames
  import Processors
  import opened Ranking
  import opened Sizes
  import Streams
  import Strategies

  const SECONDS := 1_000_000_000

  /** A transport strategy, as the sizer sees it: sizes from `min` below `max`, or without bound if `max` is 0. */
  datatype TransportStrategy = TransportStrategy(name: string, min: int, max: int)
  {
    predicate Covers(size: int) {
      (min <= size && size < max) || (min <= size && max == 0)
    }
  }

  const TINY := TransportStrategy("TinyMessageStrategy", 0, TINY_MESSAGE)
  const SMALL := TransportStrategy("SmallMessageStrategy", TINY_MESSAGE, SMALL_MESSAGE)
  const MEDIUM := TransportStrategy("MediumMessageStrategy", SMALL_MESSAGE, MEDIUM_MESSAGE)
  const LARGE := TransportStrategy("LargeMessageStrategy", MEDIUM_MESSAGE, LARGE_MESSAGE)
  const HUGE := TransportStrategy("HugeMessageStrategy", LARGE_MESSAGE, 0)

  const DEFAULTS := [TINY, SMALL, MEDIUM, LARGE, HUGE]

  function LowerBound(s: TransportStrategy): int {
    s.min
  }

  predicate DistinctNames(s: seq<TransportStrategy>) {
    forall i, j :: 0 <= i < j < |s| ==> s[i].name != s[j].name
  }

  /** The first strategy that covers the size; else the last one; else the large one. */
  function Select(strategies: seq<TransportStrategy>, size: int): TransportStrategy {
    if strategies == [] then LARGE
    else if strategies[0].Covers(size) || |strategies| == 1 then strategies[0]
    else Select(strategies[1..], size)
  }

  datatype TransportParams = TransportParams(
    chunkSize: int,
    useChunking: bool,
    noBlockDelay: bool,
    readBufferSize: int,
    writeBufferSize: int,
    readTimeout: int,
    writeTimeout: int,
    maxRetries: int,
    enableChecksum: bool)

  /** Parameters in which only the chunks, the buffers and the timeouts depend on the size. */
  function Params(chunkSize: int, useChunking: bool, buffer: int, timeout: int): TransportParams {
    TransportParams(chunkSize, useChunking, false, buffer, buffer, timeout * SECONDS, timeout * SECONDS, 3, true)
  }

  function OptimizeParams(size: int): TransportParams {
    if size < TINY_MESSAGE then Params(16 * KB, false, KB, 5)
    else if size < SMALL_MESSAGE then Params(16 * KB, false, 4 * KB, 10)
    else if size < MEDIUM_MESSAGE then Params(4 * KB, true, 16 * KB, 20)
    else if size < LARGE_MESSAGE then Params(16 * KB, true, 64 * KB, 60)
    else Params(64 * KB, true, 128 * KB, 120)
  }

  class MessageSizer {
    var strategies: seq<TransportStrategy>

    ghost predicate Valid()
      reads this
    {
      DistinctNames(strategies)
    }

    constructor Empty()
      ensures Valid() && strategies == []
    {
      strategies := [];
    }

    /** The sizer that the package makes: the five strategies, in order. */
    constructor ()
      ensures Valid() && strategies == DEFAULTS
    {
      strategies := [];
      new;
      hide DistinctNames, Tiles, Sorted;
      DefaultsDistinct();
      NoNames();
      RegisterAll(DEFAULTS);
      DefaultsTile();
      RegisteredTiles(DEFAULTS, strategies, 0);
    }

    /**
     * A strategy with a known name takes the place of the old one; a new one is added, and then all
     * are sorted by their lower bounds. Names stay distinct.
     */
    method RegisterStrategy(strategy: TransportStrategy)
      requires Valid()
      modifies this
      ensures Valid()
      ensures if exists i :: 0 <= i < |old(strategies)| && old(strategies)[i].name == strategy.name then
                exists i :: 0 <= i < |old(strategies)| && old(strategies)[i].name == strategy.name
                            && strategies == old(strategies)[i := strategy]
              else Sorted(strategies, LowerBound) && multiset(strategies) == multiset(old(strategies) + [strategy])
    {
      var i := 0;
      while i < |strategies|
        invariant 0 <= i <= |strategies|
        invariant forall k :: 0 <= k < i ==> strategies[k].name != strategy.name
      {
        if strategies[i].name == strategy.name {
          strategies := strategies[i := strategy];
          return;
        }
        i := i + 1;
      }
      ghost var appended := strategies + [strategy];
      strategies := ExchangeSort(strategies + [strategy], LowerBound);
      PermutedNames(appended, strategies);
    }

    method SelectStrategy(size: int) returns (r: TransportStrategy)
      ensures r == Select(strategies, size)
    {
      var i := 0;
      while i < |strategies|
        invariant 0 <= i <= |strategies|
        invariant i < |strategies| ==> Select(strategies, size) == Select(strategies[i..], size)
        invariant i == |strategies| > 0 ==> Select(strategies, size) == strategies[i - 1]
      {
        if strategies[i].Covers(size) {
          return strategies[i];
        }
        assert i + 1 < |strategies| ==> strategies[i..][1..] == strategies[i + 1..];
        i := i + 1;
      }
      r := if |strategies| > 0 then strategies[|strategies| - 1] else LARGE;
    }

    /** Registers strategies one after the other. */
    method RegisterAll(given: seq<TransportStrategy>)
      requires Valid() && strategies == []
      requires DistinctNames(given)
      modifies this
      ensures Valid() && Sorted(strategies, LowerBound) && multiset(strategies) == multiset(given)
    {
      for k := 0 to |given|
        invariant Valid() && Sorted(strategies, LowerBound)
        invariant multiset(strategies) == multiset(given[..k])
      {
        assert given[..k + 1] == given[..k] + [given[k]];
        forall i | 0 <= i < |strategies| ensures strategies[i].name != given[k].name {
          assert strategies[i] in multiset(given[..k]);
        }
        RegisterStrategy(given[k]);
      }
      assert given[..|given|] == given;
    }
  }

  // ----- permutations and names -----

  lemma NoNames()
    ensures DistinctNames([])
  {
  }

  lemma DefaultsTile()
    ensures Tiles(DEFAULTS)
  {
  }

  lemma DefaultsDistinct()
    ensures DistinctNames(DEFAULTS)
  {
    assert TINY.name[0] == 'T' && SMALL.name[0] == 'S' && MEDIUM.name[0] == 'M';
    assert LARGE.name[0] == 'L' && HUGE.name[0] == 'H';
  }

  /** Distinct names, without regard to order. */
  ghost predicate NamesOnce(m: multiset<TransportStrategy>) {
    && (forall x :: x in m ==> m[x] == 1)
    && (forall x, y :: x in m && y in m && x.name == y.name ==> x == y)
  }

  lemma {:induction false} DistinctOnce(s: seq<TransportStrategy>)
    requires DistinctNames(s)
    ensures NamesOnce(multiset(s))
  {
    if s != [] {
      var n := |s| - 1;
      assert s == s[..n] + [s[n]];
      DistinctOnce(s[..n]);
      assert s[n] !in multiset(s[..n]);
    }
  }

  lemma Twice(s: seq<TransportStrategy>, i: nat, j: nat)
    requires i < j < |s| && s[i] == s[j]
    ensures multiset(s)[s[i]] >= 2
  {
    assert s == s[..j] + s[j..];
    assert s[i] in multiset(s[..j]) && s[j] in multiset(s[j..]);
  }

  lemma OnceDistinct(s: seq<TransportStrategy>)
    requires NamesOnce(multiset(s))
    ensures DistinctNames(s)
  {
    forall i, j | 0 <= i < j < |s| ensures s[i].name != s[j].name {
      assert s[i] in multiset(s) && s[j] in multiset(s);
      if s[i].name == s[j].name {
        Twice(s, i, j);
      }
    }
  }

  lemma PermutedNames(a: seq<TransportStrategy>, b: seq<TransportStrategy>)
    requires DistinctNames(a) && multiset(a) == multiset(b)
    ensures DistinctNames(b)
  {
    DistinctOnce(a);
    OnceDistinct(b);
  }

  // ----- selection -----

  /** The ranges follow each other without gap or overlap, from 0 to infinity. */
  predicate Tiles(s: seq<TransportStrategy>) {
    && s != []
    && s[0].min == 0
    && s[|s| - 1].max == 0
    && forall i :: 0 <= i < |s| - 1 ==> s[i].min < s[i].max == s[i + 1].min
  }

  lemma {:induction false} TilesIncrease(s: seq<TransportStrategy>, i: nat, j: nat)
    requires Tiles(s) && i < j < |s|
    ensures 0 <= s[0].min <= s[i].min < s[i].max <= s[j].min
    decreases i + j
  {
    if i + 1 < j {
      TilesIncrease(s, i, j - 1);
    } else if i > 0 {
      TilesIncrease(s, i - 1, i);
    }
  }

  /** Exactly one of the tiles covers a size, and it is the one that is selected. */
  lemma TileSelected(s: seq<TransportStrategy>, size: nat)
    requires Tiles(s)
    ensures Select(s, size) in s && Select(s, size).Covers(size)
    ensures forall i :: 0 <= i < |s| && s[i].Covers(size) ==> s[i] == Select(s, size)
  {
    SelectFrom(s, 0, size);
    assert s[0..] == s;
    var k :| 0 <= k < |s| && s[k] == Select(s, size) && s[k].Covers(size);
    forall i | 0 <= i < |s| && s[i].Covers(size) ensures s[i] == s[k] {
      if i < k {
        TilesIncrease(s, i, k);
      } else if k < i {
        TilesIncrease(s, k, i);
      }
    }
  }

  lemma {:induction false} SelectFrom(s: seq<TransportStrategy>, k: nat, size: nat)
    requires Tiles(s) && k < |s| && s[k].min <= size
    ensures exists i :: k <= i < |s| && s[i] == Select(s[k..], size) && s[i].Covers(size)
    decreases |s| - k
  {
    if !s[k].Covers(size) {
      assert k + 1 < |s|;
      assert s[k..][1..] == s[k + 1..];
      SelectFrom(s, k + 1, size);
    } else {
      assert s[k..][0] == s[k];
    }
  }

  /**
   * Main result on selection: registered in whatever order, strategies with distinct names whose
   * ranges tile the sizes are kept in order, and each size gets the strategy that covers it.
   */
  lemma RegisteredTiles(tiles: seq<TransportStrategy>, registered: seq<TransportStrategy>, size: nat)
    requires Tiles(tiles)
    requires Sorted(registered, LowerBound) && multiset(registered) == multiset(tiles)
    ensures registered == tiles
    ensures Select(registered, size) in tiles && Select(registered, size).Covers(size)
  {
    forall i, j | 0 <= i < j < |tiles| ensures LowerBound(tiles[i]) < LowerBound(tiles[j]) {
      TilesIncrease(tiles, i, j);
    }
    SortedUnique(tiles, registered, LowerBound);
    TileSelected(tiles, size);
  }

  method SelectRegistered(given: seq<TransportStrategy>, ghost tiles: seq<TransportStrategy>, size: nat)
    returns (r: TransportStrategy)
    requires Tiles(tiles) && DistinctNames(given) && multiset(given) == multiset(tiles)
    ensures r in given && r.Covers(size)
    ensures forall s :: s in given && s.Covers(size) ==> s == r
  {
    var sizer := new MessageSizer.Empty();
    sizer.RegisterAll(given);
    r := sizer.SelectStrategy(size);
    RegisteredTiles(tiles, sizer.strategies, size);
    TileSelected(tiles, size);
    forall s | s in given ensures s in tiles {
      assert s in multiset(tiles);
    }
    assert r in multiset(given);
  }

  // ----- the default strategies and parameters -----

  /** The default parameters ask for chunks exactly where the default strategy is one that cuts, for every size but negative ones. */
  lemma ChunkingAgrees(size: int)
    ensures (OptimizeParams(size).useChunking <==> Select(DEFAULTS, size) in {MEDIUM, LARGE, HUGE}) <==> size >= 0
  {
    DefaultsTile();
    if size >= 0 {
      TileSelected(DEFAULTS, size);
    } else {
      SelectLast(DEFAULTS, size);
    }
  }

  /** A size that no strategy covers goes to the last one. */
  lemma {:induction false} SelectLast(s: seq<TransportStrategy>, size: int)
    requires s != [] && forall i :: 0 <= i < |s| ==> !s[i].Covers(size)
    ensures Select(s, size) == s[|s| - 1]
  {
    if |s| > 1 {
      SelectLast(s[1..], size);
    }
  }

  /**
   * The default parameters for every size: larger messages get no smaller buffers and no less time, from
   * 1 KiB and 5 s to 128 KiB and 2 min; a medium message takes at most 32 chunks, a large one at most 64,
   * a huge one those of 64 KiB. All are sent with checksums and three retries.
   */
  lemma ParamsGrow(size: int, other: int)
    requires size <= other
    ensures var p, q := OptimizeParams(size), OptimizeParams(other);
            && p.readBufferSize == p.writeBufferSize <= q.readBufferSize && p.readTimeout == p.writeTimeout <= q.readTimeout
            && 1024 <= p.readBufferSize <= 131072 && 5_000_000_000 <= p.readTimeout <= 120_000_000_000
            && (size < 1024 ==> p.readBufferSize == 1024 && p.readTimeout == 5_000_000_000)
            && (1024 <= size < 16384 ==> p.readBufferSize == 4096 && p.readTimeout == 10_000_000_000)
            && (size < 16384 ==> !p.useChunking)
            && (16384 <= size < 131072 ==>
                  p.readBufferSize == 16384 && p.readTimeout == 20_000_000_000 && (size + p.chunkSize - 1) / p.chunkSize <= 32)
            && (131072 <= size < 1048576 ==>
                  p.readBufferSize == 65536 && p.readTimeout == 60_000_000_000 && (size + p.chunkSize - 1) / p.chunkSize <= 64)
            && (1048576 <= size ==>
                  p.readBufferSize == 131072 && p.readTimeout == 120_000_000_000 && p.chunkSize == 65536)
            && (16384 <= size ==> p.useChunking && p.chunkSize >= 4096)
            && p.enableChecksum && p.maxRetries == 3 && !p.noBlockDelay
  {
  }

  /** The default chunk sizes keep every frame inside the domain of the frame codec. */
  lemma DefaultChunksCarried(codec: FrameCodec, data: Bytes)
    requires codec.maxFrameSize <= 0
    ensures var chunk := OptimizeParams(|data|).chunkSize;
            chunk > 0 && Processors.SendsAll(Processors.Basic(codec), Strategies.Slices(data, 0, chunk))
  {
    var chunk := OptimizeParams(|data|).chunkSize;
    Strategies.SmallCuts(|data|, chunk);
    Strategies.SlicesPass(codec, Processors.Basic(codec), data, chunk);
  }

  /** With the default parameters the huge strategy refuses every message of its own range. */
  lemma DefaultsRefuseHuge(codec: FrameCodec, data: Bytes, suffix: Bytes, ending: Ending)
    requires codec.maxFrameSize == 0
    requires HUGE.Covers(|data|) && |data| < Strategies.INT_LIMIT
    ensures var p := OptimizeParams(|data|);
            && p.chunkSize > 0
            && var sent := Streams.Emit(Processors.Basic(codec), Strategies.HugeFrames(data, p.chunkSize), Unlimited);
               Strategies.HugeReceived(codec, Input(sent.bytes + suffix, ending), p.maxRetries).result == Err(FrameTooBig)
  {
    var p := OptimizeParams(|data|);
    Strategies.SmallCuts(|data|, p.chunkSize);
    Strategies.HugeRoundTrip(codec, data, p.chunkSize, p.maxRetries, suffix, ending);
  }
}
