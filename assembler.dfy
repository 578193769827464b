/**
 * Reassembly of the full-disk image: a canvas of `TileSize * tileCount` pixels
 * square, and each decoded tile pasted in place into its rectangle
 * `[TileSize * x, TileSize * (x + 1)) x [TileSize * y, TileSize * (y + 1))`.
 * Pixels are abstract (`P`); PNG decoding is not part of this model, a tile
 * whose bytes do not decode arrives as `None`.
 */
module Assembler {
  import opened Wrappers
  import opened Timestamps
  import opened Planner

  /** A decoded tile: `tile[i][j]` is the pixel in column i, row j. */
  type Tile<P> = seq<seq<P>>

  /** `(x, y, tiledata)` as a job returns it, with the bytes already decoded. */
  datatype TileResult<P> = TileResult(x: nat, y: nat, image: Option<Tile<P>>)

  /** A 4-tuple paste box demands an image of exactly the box's size. */
  predicate WellSized<P>(t: Tile<P>) {
    |t| == TileSize && forall i | 0 <= i < |t| :: |t[i]| == TileSize
  }

  predicate Pastable<P>(r: TileResult<P>) {
    r.image.Some? && WellSized(r.image.value)
  }

  predicate AllPastable<P>(rs: seq<TileResult<P>>) {
    forall k | 0 <= k < |rs| :: Pastable(rs[k])
  }

  /** Pixel (i, j) lies in the rectangle of tile (x, y). */
  predicate InRect(x: nat, y: nat, i: int, j: int) {
    TileSize * x <= i < TileSize * (x + 1) && TileSize * y <= j < TileSize * (y + 1)
  }

  /** Pixel (i, j) after pasting `results` in order onto a canvas filled with `blank`. */
  function Painted<P>(results: seq<TileResult<P>>, blank: P, i: int, j: int): (pixel: P)
    requires AllPastable(results)
  {
    if results == [] then blank
    else
      var r := results[|results| - 1];
      if InRect(r.x, r.y, i, j) then r.image.value[i - TileSize * r.x][j - TileSize * r.y]
      else Painted(results[..|results| - 1], blank, i, j)
  }

  function Min(a: int, b: int): (m: int) {
    if a <= b then a else b
  }

  /**
   * `canvas.paste(tile, box)` for the box of cell (x, y): fails, changing
   * nothing, when the tile is not exactly one tile large; otherwise writes the
   * part of the rectangle inside the canvas and leaves every other pixel alone.
   */
  method Paste<P>(canvas: array2<P>, tile: Tile<P>, x: nat, y: nat) returns (ok: bool)
    modifies canvas
    ensures ok <==> WellSized(tile)
    ensures !ok ==> unchanged(canvas)
    ensures ok ==> forall i, j | 0 <= i < canvas.Length0 && 0 <= j < canvas.Length1 ::
      canvas[i, j] == if InRect(x, y, i, j) then tile[i - TileSize * x][j - TileSize * y] else old(canvas[i, j])
  {
    ok := WellSized(tile);
    if !ok {
      return;
    }
    var hi0 := Min(canvas.Length0, TileSize * (x + 1));
    var lo0 := Min(TileSize * x, hi0);
    var hi1 := Min(canvas.Length1, TileSize * (y + 1));
    var lo1 := Min(TileSize * y, hi1);
    var i := lo0;
    while i < hi0
      invariant lo0 <= i <= hi0
      invariant forall a, b | 0 <= a < canvas.Length0 && 0 <= b < canvas.Length1 ::
        canvas[a, b] == if a < i && InRect(x, y, a, b) then tile[a - TileSize * x][b - TileSize * y] else old(canvas[a, b])
    {
      var j := lo1;
      while j < hi1
        invariant lo1 <= j <= hi1
        invariant forall a, b | 0 <= a < canvas.Length0 && 0 <= b < canvas.Length1 ::
          canvas[a, b] ==
            if (a < i || (a == i && b < j)) && InRect(x, y, a, b) then tile[a - TileSize * x][b - TileSize * y]
            else old(canvas[a, b])
      {
        canvas[i, j] := tile[i - TileSize * x][j - TileSize * y];
        j := j + 1;
      }
      i := i + 1;
    }
  }

  /**
   * The assembly of `thread_main`: a new canvas filled with `blank` (black), then
   * every result pasted in list order. It fails as soon as a tile does not
   * decode or has the wrong size; the partial canvas is then never used.
   */
  method Assemble<P>(tileCount: nat, results: seq<TileResult<P>>, blank: P) returns (canvas: array2<P>, ok: bool)
    ensures fresh(canvas)
    ensures canvas.Length0 == TileSize * tileCount && canvas.Length1 == TileSize * tileCount
    ensures ok <==> AllPastable(results)
    ensures ok ==> forall i, j | 0 <= i < canvas.Length0 && 0 <= j < canvas.Length1 ::
      canvas[i, j] == Painted(results, blank, i, j)
  {
    var size := TileSize * tileCount;
    canvas := new P[size, size]((i, j) => blank);
    var k := 0;
    while k < |results|
      invariant 0 <= k <= |results|
      invariant AllPastable(results[..k])
      invariant forall i, j | 0 <= i < size && 0 <= j < size :: canvas[i, j] == Painted(results[..k], blank, i, j)
    {
      var r := results[k];
      if r.image.None? {
        ok := false;
        return;
      }
      var pasted := Paste(canvas, r.image.value, r.x, r.y);
      if !pasted {
        ok := false;
        return;
      }
      assert results[..k + 1][..k] == results[..k];
      k := k + 1;
    }
    assert results[..k] == results;
    ok := true;
  }

  /** Rectangles of different cells do not overlap. */
  lemma RectsDisjoint(x: nat, y: nat, x': nat, y': nat, i: int, j: int)
    requires InRect(x, y, i, j) && InRect(x', y', i, j)
    ensures x == x' && y == y'
  {
  }

  /**
   * The rectangles of an n-by-n grid tile the canvas: each lies inside it, and
   * every pixel lies in the rectangle of cell (i / TileSize, j / TileSize).
   */
  lemma RectsCoverCanvas(n: nat, x: nat, y: nat, i: int, j: int)
    ensures x < n && y < n && InRect(x, y, i, j) ==> 0 <= i < TileSize * n && 0 <= j < TileSize * n
    ensures 0 <= i < TileSize * n && 0 <= j < TileSize * n ==>
      i / TileSize < n && j / TileSize < n && InRect(i / TileSize, j / TileSize, i, j)
  {
  }

  /**
   * A pixel whose rectangle is claimed by one result only (possibly repeated)
   * shows that result's tile, wherever it stands in the list.
   */
  lemma {:induction false} PaintedOwner<P>(rs: seq<TileResult<P>>, blank: P, i: int, j: int, r: TileResult<P>)
    requires AllPastable(rs) && r in rs && InRect(r.x, r.y, i, j)
    requires forall l | 0 <= l < |rs| && InRect(rs[l].x, rs[l].y, i, j) :: rs[l] == r
    ensures Pastable(r) && Painted(rs, blank, i, j) == r.image.value[i - TileSize * r.x][j - TileSize * r.y]
  {
    var last := rs[|rs| - 1];
    if !InRect(last.x, last.y, i, j) {
      var init := rs[..|rs| - 1];
      assert rs == init + [last];
      PaintedOwner(init, blank, i, j, r);
    }
  }

  /** A pixel no result's rectangle contains stays blank. */
  lemma {:induction false} PaintedUnclaimed<P>(rs: seq<TileResult<P>>, blank: P, i: int, j: int)
    requires AllPastable(rs)
    requires forall l | 0 <= l < |rs| :: !InRect(rs[l].x, rs[l].y, i, j)
    ensures Painted(rs, blank, i, j) == blank
  {
    if rs != [] {
      PaintedUnclaimed(rs[..|rs| - 1], blank, i, j);
    }
  }

  /** No two results are for the same cell. */
  predicate DistinctCells<P>(rs: seq<TileResult<P>>) {
    forall k, l | 0 <= k < l < |rs| :: (rs[k].x, rs[k].y) != (rs[l].x, rs[l].y)
  }

  /**
   * Paste order does not matter: results for distinct cells, pasted in any
   * order (any list holding the same results), give the same canvas.
   */
  lemma PasteOrderIrrelevant<P>(rs: seq<TileResult<P>>, qs: seq<TileResult<P>>, blank: P, i: int, j: int)
    requires AllPastable(rs) && AllPastable(qs) && DistinctCells(rs)
    requires forall r :: r in rs <==> r in qs
    ensures Painted(rs, blank, i, j) == Painted(qs, blank, i, j)
  {
    if l :| 0 <= l < |rs| && InRect(rs[l].x, rs[l].y, i, j) {
      var r := rs[l];
      forall m | 0 <= m < |rs| && InRect(rs[m].x, rs[m].y, i, j)
        ensures rs[m] == r
      {
        RectsDisjoint(rs[m].x, rs[m].y, r.x, r.y, i, j);
      }
      forall m | 0 <= m < |qs| && InRect(qs[m].x, qs[m].y, i, j)
        ensures qs[m] == r
      {
        assert qs[m] in rs;
        RectsDisjoint(qs[m].x, qs[m].y, r.x, r.y, i, j);
      }
      PaintedOwner(rs, blank, i, j, r);
      PaintedOwner(qs, blank, i, j, r);
    } else {
      forall m | 0 <= m < |qs|
        ensures !InRect(qs[m].x, qs[m].y, i, j)
      {
        assert qs[m] in rs;
      }
      PaintedUnclaimed(rs, blank, i, j);
      PaintedUnclaimed(qs, blank, i, j);
    }
  }

  /** The results of the pool's map: one per job, in job order, for the job's cell. */
  predicate ResultsOfJobs<P>(jobs: seq<TileJob>, rs: seq<TileResult<P>>) {
    |rs| == |jobs| && forall k | 0 <= k < |rs| :: rs[k].x == jobs[k].x && rs[k].y == jobs[k].y
  }

  /**
   * Once all `n * n` results of one grid are pasted, every pixel (i, j) of the
   * canvas shows pixel (i % TileSize, j % TileSize) of the tile of cell
   * (i / TileSize, j / TileSize); no pixel stays blank.
   */
  lemma AssembledPixel<P>(baseUrl: string, latest: Timestamp, n: nat, level: nat,
                          rs: seq<TileResult<P>>, blank: P, i: int, j: int)
    requires ResultsOfJobs(Jobs(baseUrl, latest, n, level), rs) && AllPastable(rs)
    requires 0 <= i < TileSize * n && 0 <= j < TileSize * n
    ensures DistinctCells(rs)
    ensures exists k | 0 <= k < |rs| :: rs[k].x == i / TileSize && rs[k].y == j / TileSize
    ensures forall k | 0 <= k < |rs| && rs[k].x == i / TileSize && rs[k].y == j / TileSize ::
      Painted(rs, blank, i, j) == rs[k].image.value[i % TileSize][j % TileSize]
  {
    var jobs := Jobs(baseUrl, latest, n, level);
    JobsCoverGrid(baseUrl, latest, n, level);
    JobsOrdered(baseUrl, latest, n, level);
    forall k, l | 0 <= k < l < |rs|
      ensures (rs[k].x, rs[k].y) != (rs[l].x, rs[l].y)
    {
      assert LexBefore((jobs[k].x, jobs[k].y), (jobs[l].x, jobs[l].y));
    }
    RectsCoverCanvas(n, 0, 0, i, j);
    var x: nat, y: nat := i / TileSize, j / TileSize;
    assert TileJob(baseUrl, latest, x, y, level, n) in jobs;
    var k0 :| 0 <= k0 < |jobs| && jobs[k0] == TileJob(baseUrl, latest, x, y, level, n);
    assert rs[k0].x == x && rs[k0].y == y;
    forall k | 0 <= k < |rs| && rs[k].x == x && rs[k].y == y
      ensures Painted(rs, blank, i, j) == rs[k].image.value[i % TileSize][j % TileSize]
    {
      var r := rs[k];
      forall m | 0 <= m < |rs| && InRect(rs[m].x, rs[m].y, i, j)
        ensures rs[m] == r
      {
        RectsDisjoint(rs[m].x, rs[m].y, x, y, i, j);
      }
      PaintedOwner(rs, blank, i, j, r);
    }
  }
}
