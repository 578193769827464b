/**
 * One tile download job (`download_chunk`): the URL of the tile, and the shared
 * completion counter with the progress message it prints. The HTTP fetch itself
 * is not part of this model.
 */
module Download {
  import opened Decimal
  import opened Timestamps
  import opened Planner

  /** Path segment between the date and the timestamp of the tile server. */
  const ProductPath: string := "/goes-16---full_disk/natural_color/"

  /**
   * `base + "/imagery/{}/goes-16---full_disk/natural_color/{}/0{}/00{}_00{}.png"`
   * filled with the date, the timestamp, the level, y and x, in that order.
   * The level, y and x are plain `str` values behind the literal "0" and "00".
   */
  function TileUrl(baseUrl: string, latest: Timestamp, level: nat, x: nat, y: nat): (url: string)
    requires Valid(latest)
  {
    baseUrl + "/imagery/" + DateSegment(latest) + ProductPath + StampSegment(latest)
    + "/0" + NatToString(level) + "/00" + NatToString(y) + "_00" + NatToString(x) + ".png"
  }

  function JobUrl(job: TileJob): (url: string)
    requires Valid(job.latest)
  {
    TileUrl(job.baseUrl, job.latest, job.level, job.x, job.y)
  }

  /** The tile-specific tail of a URL, after the part shared by all tiles of one timestamp. */
  function TileTail(level: nat, x: nat, y: nat): (tail: string) {
    NatToString(level) + ("/00" + CellTail(x, y))
  }

  function CellTail(x: nat, y: nat): (tail: string) {
    NatToString(y) + ("_00" + (NatToString(x) + ".png"))
  }

  lemma TileUrlSplits(baseUrl: string, latest: Timestamp, level: nat, x: nat, y: nat)
    requires Valid(latest)
    ensures TileUrl(baseUrl, latest, level, x, y)
      == baseUrl + "/imagery/" + DateSegment(latest) + ProductPath + StampSegment(latest) + "/0" + TileTail(level, x, y)
  {
  }

  /** Two numbers written in front of texts that start with a non-digit can be told apart. */
  lemma PeelNumber(a: nat, b: nat, r1: string, r2: string)
    requires |r1| >= 1 && !IsDigit(r1[0]) && |r2| >= 1 && !IsDigit(r2[0])
    requires NatToString(a) + r1 == NatToString(b) + r2
    ensures a == b && r1 == r2
  {
    DigitPrefixSplit(NatToString(a), r1, NatToString(b), r2);
    NatToStringInjective(a, b);
  }

  lemma DropPrefix(p: string, r1: string, r2: string)
    requires p + r1 == p + r2
    ensures r1 == r2
  {
    assert r1 == (p + r1)[|p|..];
    assert r2 == (p + r2)[|p|..];
  }

  lemma TileTailInjective(level: nat, x: nat, y: nat, level': nat, x': nat, y': nat)
    requires TileTail(level, x, y) == TileTail(level', x', y')
    ensures level == level' && x == x' && y == y'
  {
    PeelNumber(level, level', "/00" + CellTail(x, y), "/00" + CellTail(x', y'));
    DropPrefix("/00", CellTail(x, y), CellTail(x', y'));
    PeelNumber(y, y', "_00" + (NatToString(x) + ".png"), "_00" + (NatToString(x') + ".png"));
    DropPrefix("_00", NatToString(x) + ".png", NatToString(x') + ".png");
    PeelNumber(x, x', ".png", ".png");
  }

  /**
   * Two tiles of one timestamp share a URL only if they have the same level, x
   * and y: the y-before-x template with literal "00" prefixes cannot confuse
   * two cells even when a coordinate has two digits.
   */
  lemma TileUrlInjective(baseUrl: string, latest: Timestamp, level: nat, x: nat, y: nat, level': nat, x': nat, y': nat)
    requires Valid(latest)
    requires TileUrl(baseUrl, latest, level, x, y) == TileUrl(baseUrl, latest, level', x', y')
    ensures level == level' && x == x' && y == y'
  {
    var shared := baseUrl + "/imagery/" + DateSegment(latest) + ProductPath + StampSegment(latest) + "/0";
    TileUrlSplits(baseUrl, latest, level, x, y);
    TileUrlSplits(baseUrl, latest, level', x', y');
    var u1, u2 := shared + TileTail(level, x, y), shared + TileTail(level', x', y');
    assert u1 == u2;
    assert TileTail(level, x, y) == u1[|shared|..];
    assert TileTail(level', x', y') == u2[|shared|..];
    TileTailInjective(level, x, y, level', x', y');
  }

  /** The jobs of one grid fetch pairwise different URLs. */
  lemma JobUrlsDistinct(baseUrl: string, latest: Timestamp, n: nat, level: nat, i: nat, j: nat)
    requires Valid(latest)
    requires i < j < n * n
    ensures var jobs := Jobs(baseUrl, latest, n, level); JobUrl(jobs[i]) != JobUrl(jobs[j])
  {
    var jobs := Jobs(baseUrl, latest, n, level);
    JobsCoverGrid(baseUrl, latest, n, level);
    JobsOrdered(baseUrl, latest, n, level);
    assert LexBefore((jobs[i].x, jobs[i].y), (jobs[j].x, jobs[j].y));
    if JobUrl(jobs[i]) == JobUrl(jobs[j]) {
      TileUrlInjective(baseUrl, latest, level, jobs[i].x, jobs[i].y, level, jobs[j].x, jobs[j].y);
    }
  }

  const Completed: string := "Downloading tiles: completed."

  /** What a finished job prints once the shared counter reads `count`. */
  function ProgressMessage(count: nat, total: nat): (message: string) {
    if count == total then Completed
    else "Downloading tiles: " + NatToString(count) + "/" + NatToString(total) + " completed..."
  }

  /** The completion message is printed exactly when the count reaches the total. */
  lemma CompletedIff(count: nat, total: nat)
    ensures ProgressMessage(count, total) == Completed <==> count == total
  {
    if count != total {
      var m := ProgressMessage(count, total);
      assert m[19] == NatToString(count)[0];
      assert Completed[19] == 'c';
    }
  }

  /** Progress messages of different counts differ: every completion prints its own line. */
  lemma ProgressMessageInjective(a: nat, b: nat, total: nat)
    requires ProgressMessage(a, total) == ProgressMessage(b, total)
    ensures a == b
  {
    CompletedIff(a, total);
    CompletedIff(b, total);
    if a != total {
      var prefix := "Downloading tiles: ";
      var ra := "/" + NatToString(total) + " completed...";
      var ma, mb := ProgressMessage(a, total), ProgressMessage(b, total);
      assert ma[|prefix|..] == NatToString(a) + ra;
      assert mb[|prefix|..] == NatToString(b) + ra;
      DigitPrefixSplit(NatToString(a), ra, NatToString(b), ra);
      NatToStringInjective(a, b);
    }
  }

  /** The messages printed by the first k completions of a grid of `total` tiles, in order. */
  function RunMessages(k: nat, total: nat): (ms: seq<string>)
    ensures |ms| == k
  {
    if k == 0 then [] else RunMessages(k - 1, total) + [ProgressMessage(k, total)]
  }

  lemma {:induction false} RunMessageAt(k: nat, total: nat, i: nat)
    requires i < k
    ensures RunMessages(k, total)[i] == ProgressMessage(i + 1, total)
  {
    if i < k - 1 {
      RunMessageAt(k - 1, total, i);
    }
  }

  /** Over all the completions of one grid, exactly the last message is "completed.". */
  lemma RunCompletesLast(total: nat, i: nat)
    requires i < total
    ensures RunMessages(total, total)[i] == Completed <==> i == total - 1
  {
    RunMessageAt(total, total, i);
    CompletedIff(i + 1, total);
  }

  /** Over all the completions of one grid, no message is printed twice. */
  lemma RunMessagesDistinct(total: nat, i: nat, j: nat)
    requires i < j < total
    ensures RunMessages(total, total)[i] != RunMessages(total, total)[j]
  {
    RunMessageAt(total, total, i);
    RunMessageAt(total, total, j);
    if ProgressMessage(i + 1, total) == ProgressMessage(j + 1, total) {
      ProgressMessageInjective(i + 1, j + 1, total);
    }
  }

  /**
   * The shared `counter` (a `multiprocessing.Value("i", 0)`), updated one
   * completion at a time as the lock serialises them.
   */
  class CompletionCounter {
    var value: nat

    constructor ()
      ensures value == 0
    {
      value := 0;
    }

    /** The counter step of `download_chunk` for a job of a `tileCount`-square grid. */
    method Complete(tileCount: nat) returns (message: string)
      modifies this
      ensures value == old(value) + 1
      ensures message == ProgressMessage(value, tileCount * tileCount)
      ensures message == Completed <==> value == tileCount * tileCount
    {
      value := value + 1;
      message := ProgressMessage(value, tileCount * tileCount);
      CompletedIff(value, tileCount * tileCount);
    }
  }
}
