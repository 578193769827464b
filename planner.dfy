/**
 * The tile grid: the fixed tile edge, the output sizes the size option offers,
 * the tile count and zoom level derived from a size, and the list of download
 * jobs that `it.product` enumerates, one per grid cell.
 */
module Planner {
  import opened Wrappers
  import opened Timestamps

  /** Edge length of one tile, in pixels. */
  const TileSize: nat := 678

  /** The choices of the size option. */
  const AllowedSizes: seq<nat> := [678, 1356, 2712, 5424, 10848]

  function Pow2(k: nat): (p: nat)
    ensures p >= 1
  {
    if k == 0 then 1 else 2 * Pow2(k - 1)
  }

  /** `int(math.log(n, 2))`, read as the exact floor of the base-2 logarithm. */
  function FloorLog2(n: nat): (k: nat)
    requires n >= 1
    ensures Pow2(k) <= n < 2 * Pow2(k)
  {
    if n == 1 then 0 else 1 + FloorLog2(n / 2)
  }

  datatype GridPlan = GridPlan(tileCount: nat, level: nat)

  /**
   * `tile_count = int(size / TILE_SIZE)` and `level = int(math.log(tile_count, 2))`.
   * A size below one tile makes `math.log(0, 2)` fail: `None`.
   */
  function Plan(size: nat): (r: Option<GridPlan>)
    ensures r.None? <==> size < TileSize
    ensures r.Some? ==> r.value.tileCount * TileSize <= size < (r.value.tileCount + 1) * TileSize
    ensures r.Some? ==> Pow2(r.value.level) <= r.value.tileCount < 2 * Pow2(r.value.level)
  {
    var tileCount := size / TileSize;
    if tileCount == 0 then None else Some(GridPlan(tileCount, FloorLog2(tileCount)))
  }

  lemma {:induction false} FloorLog2OfPow2(k: nat)
    ensures FloorLog2(Pow2(k)) == k
  {
    if k > 0 {
      assert Pow2(k) / 2 == Pow2(k - 1);
      FloorLog2OfPow2(k - 1);
    }
  }

  /**
   * Every allowed size is a whole number of tiles, the tile count is a power of
   * two from 1 to 16 and the level is its exact base-2 logarithm.
   */
  lemma AllowedSizePlan(size: nat)
    requires size in AllowedSizes
    ensures size % TileSize == 0
    ensures Plan(size).Some?
    ensures Plan(size).value.tileCount in {1, 2, 4, 8, 16}
    ensures Plan(size).value.tileCount * TileSize == size
    ensures Plan(size).value.level <= 4
    ensures Pow2(Plan(size).value.level) == Plan(size).value.tileCount
  {
    var k: nat :| k <= 4 && size == TileSize * Pow2(k) by {
      assert Pow2(1) == 2 && Pow2(2) == 4 && Pow2(3) == 8 && Pow2(4) == 16;
      if size == 678 { assert size == TileSize * Pow2(0); }
      else if size == 1356 { assert size == TileSize * Pow2(1); }
      else if size == 2712 { assert size == TileSize * Pow2(2); }
      else if size == 5424 { assert size == TileSize * Pow2(3); }
      else { assert size == TileSize * Pow2(4); }
    }
    assert size / TileSize == Pow2(k);
    FloorLog2OfPow2(k);
    assert Pow2(1) == 2 && Pow2(2) == 4 && Pow2(3) == 8 && Pow2(4) == 16;
  }

  /** One download job: `(base_url, latest, x, y, level, tile_count)`. */
  datatype TileJob = TileJob(baseUrl: string, latest: Timestamp, x: nat, y: nat, level: nat, tileCount: nat)

  /** `range(n)`. */
  function Range(n: nat): (r: seq<nat>)
    ensures |r| == n && forall i | 0 <= i < n :: r[i] == i
  {
    seq(n, i => i)
  }

  /** `x` paired with each element of `ys`, in order. */
  function Pair(x: nat, ys: seq<nat>): (r: seq<(nat, nat)>)
    ensures |r| == |ys|
  {
    seq(|ys|, j requires 0 <= j < |ys| => (x, ys[j]))
  }

  /** `it.product(xs, ys)`: pairs in order, the last factor varying fastest. */
  function Product(xs: seq<nat>, ys: seq<nat>): (r: seq<(nat, nat)>)
    ensures |r| == |xs| * |ys|
  {
    if xs == [] then [] else Pair(xs[0], ys) + Product(xs[1..], ys)
  }

  predicate Increasing(s: seq<nat>) {
    forall i, j | 0 <= i < j < |s| :: s[i] < s[j]
  }

  /** Lexicographic order on cells, the first coordinate deciding first. */
  predicate LexBefore(p: (nat, nat), q: (nat, nat)) {
    p.0 < q.0 || (p.0 == q.0 && p.1 < q.1)
  }

  lemma {:induction false} ProductMembers(xs: seq<nat>, ys: seq<nat>, p: (nat, nat))
    ensures p in Product(xs, ys) <==> p.0 in xs && p.1 in ys
  {
    if xs != [] {
      ProductMembers(xs[1..], ys, p);
      assert xs == [xs[0]] + xs[1..];
      if p.0 == xs[0] && p.1 in ys {
        var j :| 0 <= j < |ys| && ys[j] == p.1;
        assert Pair(xs[0], ys)[j] == p;
      }
    }
  }

  /** The product of two increasing sequences is increasing in the lexicographic order. */
  lemma {:induction false} ProductIncreasing(xs: seq<nat>, ys: seq<nat>)
    requires Increasing(xs) && Increasing(ys)
    ensures forall i, j | 0 <= i < j < |Product(xs, ys)| :: LexBefore(Product(xs, ys)[i], Product(xs, ys)[j])
  {
    if xs != [] {
      var a, b := Pair(xs[0], ys), Product(xs[1..], ys);
      ProductIncreasing(xs[1..], ys);
      var r := a + b;
      forall i, j | 0 <= i < j < |r|
        ensures LexBefore(r[i], r[j])
      {
        if j < |a| {
          assert r[i] == a[i] == (xs[0], ys[i]) && r[j] == a[j] == (xs[0], ys[j]);
          assert ys[i] < ys[j];
        } else if i < |a| {
          assert r[i] == a[i];
          assert r[j] == b[j - |a|] && r[j] in b;
          ProductMembers(xs[1..], ys, r[j]);
          var k :| 0 <= k < |xs[1..]| && xs[1..][k] == r[j].0;
          assert xs[0] < xs[1 + k];
          assert r[i].0 < r[j].0;
        } else {
          assert r[i] == b[i - |a|] && r[j] == b[j - |a|];
          assert LexBefore(b[i - |a|], b[j - |a|]);
        }
      }
    }
  }

  /**
   * The job list of the pool: `it.product((base,), (latest,), range(n), range(n),
   * (level,), (n,))`, with x from the first range and y from the second.
   */
  function Jobs(baseUrl: string, latest: Timestamp, tileCount: nat, level: nat): (jobs: seq<TileJob>)
    ensures |jobs| == tileCount * tileCount
  {
    var cells := Product(Range(tileCount), Range(tileCount));
    seq(|cells|, k requires 0 <= k < |cells| => TileJob(baseUrl, latest, cells[k].0, cells[k].1, level, tileCount))
  }

  /**
   * The job list has one entry per cell of the n-by-n grid: every entry lies
   * in the grid and carries the shared base URL, timestamp, level and count,
   * and every cell of the grid has its job.
   */
  lemma JobsCoverGrid(baseUrl: string, latest: Timestamp, n: nat, level: nat)
    ensures var jobs := Jobs(baseUrl, latest, n, level);
      (forall k | 0 <= k < |jobs| ::
        jobs[k].x < n && jobs[k].y < n && jobs[k] == TileJob(baseUrl, latest, jobs[k].x, jobs[k].y, level, n))
      && (forall x: nat, y: nat | x < n && y < n :: TileJob(baseUrl, latest, x, y, level, n) in jobs)
  {
    var jobs := Jobs(baseUrl, latest, n, level);
    var cells := Product(Range(n), Range(n));
    forall k | 0 <= k < |jobs|
      ensures jobs[k].x < n && jobs[k].y < n
    {
      ProductMembers(Range(n), Range(n), cells[k]);
    }
    forall x: nat, y: nat | x < n && y < n
      ensures TileJob(baseUrl, latest, x, y, level, n) in jobs
    {
      assert Range(n)[x] == x && Range(n)[y] == y;
      ProductMembers(Range(n), Range(n), (x, y));
      var k :| 0 <= k < |cells| && cells[k] == (x, y);
      assert jobs[k] == TileJob(baseUrl, latest, x, y, level, n);
    }
  }

  /**
   * The jobs come ordered by (x, y), x the outer index and y the inner one;
   * in particular no cell is downloaded twice.
   */
  lemma JobsOrdered(baseUrl: string, latest: Timestamp, n: nat, level: nat)
    ensures var jobs := Jobs(baseUrl, latest, n, level);
      forall i, j | 0 <= i < j < |jobs| :: LexBefore((jobs[i].x, jobs[i].y), (jobs[j].x, jobs[j].y))
  {
    var jobs := Jobs(baseUrl, latest, n, level);
    var cells := Product(Range(n), Range(n));
    ProductIncreasing(Range(n), Range(n));
    forall i, j | 0 <= i < j < |jobs|
      ensures LexBefore((jobs[i].x, jobs[i].y), (jobs[j].x, jobs[j].y))
    {
      assert (jobs[i].x, jobs[i].y) == cells[i] && (jobs[j].x, jobs[j].y) == cells[j];
      assert LexBefore(cells[i], cells[j]);
    }
  }

  /** No job appears twice in the list. */
  lemma JobsDistinct(baseUrl: string, latest: Timestamp, n: nat, level: nat, i: nat, j: nat)
    requires i < j < n * n
    ensures var jobs := Jobs(baseUrl, latest, n, level); jobs[i] != jobs[j]
  {
    var jobs := Jobs(baseUrl, latest, n, level);
    JobsOrdered(baseUrl, latest, n, level);
    assert LexBefore((jobs[i].x, jobs[i].y), (jobs[j].x, jobs[j].y));
  }
}
