/**
 * The pure preparation steps of `thread_main`, in source order: the grid plan
 * from the size, the timestamp from the feed's latest entry, the job list with
 * its tile URLs, and the name of the output file.
 */
module Pipeline {
  import opened Wrappers
  import opened Decimal
  import opened Timestamps
  import opened Planner
  import opened Download

  const BaseUrl: string := "https://rammb-slider.cira.colostate.edu/data"

  datatype Prepared = Prepared(plan: GridPlan, latest: Timestamp, jobs: seq<TileJob>, urls: seq<string>, outputName: string)

  /** `math.log(0, 2)` for a size below one tile, or the feed entry that `strptime` refuses. */
  datatype PrepareError = MathDomainError | TimestampError

  /** Side of the canvas allocated for the plan. */
  function CanvasSide(plan: GridPlan): (side: nat) {
    TileSize * plan.tileCount
  }

  function Prepare(baseUrl: string, size: nat, stamp: string): (r: Result<Prepared, PrepareError>)
    ensures r.Success? ==> |r.value.jobs| == |r.value.urls| == r.value.plan.tileCount * r.value.plan.tileCount
  {
    match Plan(size)
    case None => Failure(MathDomainError)
    case Some(plan) =>
      match Parse(stamp)
      case None => Failure(TimestampError)
      case Some(latest) =>
        var jobs := Jobs(baseUrl, latest, plan.tileCount, plan.level);
        Success(Prepared(plan, latest, jobs, seq(|jobs|, k requires 0 <= k < |jobs| => JobUrl(jobs[k])),
                         OutputFileName(latest)))
  }

  /**
   * For an allowed size and a well-formed feed timestamp, preparation succeeds:
   * the canvas is the requested size, there are tileCount squared pairwise
   * different tile URLs, and the output name is cut from the feed's digits.
   */
  lemma PrepareOk(baseUrl: string, size: nat, stamp: string)
    requires size in AllowedSizes && Parse(stamp).Some? && stamp[0] != '0'
    ensures Prepare(baseUrl, size, stamp).Success?
    ensures var p := Prepare(baseUrl, size, stamp).value;
      CanvasSide(p.plan) == size
      && (forall i, j | 0 <= i < j < |p.urls| :: p.urls[i] != p.urls[j])
      && p.outputName == "goes16-" + stamp[0..8] + "T" + stamp[8..14] + ".png"
  {
    AllowedSizePlan(size);
    FormatAfterParse(stamp);
    var p := Prepare(baseUrl, size, stamp).value;
    forall i, j | 0 <= i < j < |p.urls|
      ensures p.urls[i] != p.urls[j]
    {
      JobUrlsDistinct(baseUrl, p.latest, p.plan.tileCount, p.plan.level, i, j);
    }
  }

  /** A size below one tile fails before the feed is read; an unparsable feed entry fails next. */
  lemma PrepareErrors(baseUrl: string, size: nat, stamp: string)
    ensures Prepare(baseUrl, size, stamp) == Failure(MathDomainError) <==> size < TileSize
    ensures Prepare(baseUrl, size, stamp) == Failure(TimestampError) <==> size >= TileSize && Parse(stamp).None?
  {
  }

  lemma SegmentsScenario()
    ensures Valid(Timestamp(2023, 1, 1, 12, 0, 0))
    ensures DateSegment(Timestamp(2023, 1, 1, 12, 0, 0)) == "2023/01/01"
    ensures StampSegment(Timestamp(2023, 1, 1, 12, 0, 0)) == "20230101120000"
  {
    assert NatToString(2023) == "2023" by {
      assert NatToString(2) == "2";
      assert NatToString(20) == "20";
      assert NatToString(202) == "202";
    }
    assert Pad2(1) == "01" && Pad2(12) == "12" && Pad2(0) == "00";
  }

  lemma ParseScenario()
    ensures Parse("20230101120000") == Some(Timestamp(2023, 1, 1, 12, 0, 0))
  {
    SegmentsScenario();
    ParseAfterFormat(Timestamp(2023, 1, 1, 12, 0, 0));
  }

  lemma OutputNameScenario()
    ensures OutputFileName(Timestamp(2023, 1, 1, 12, 0, 0)) == "goes16-20230101T120000.png"
  {
    SegmentsScenario();
    assert Pad2(1) == "01" && Pad2(12) == "12" && Pad2(0) == "00";
  }

  /**
   * The feed says 20230101120000 and the size is 1356: a 2-by-2 grid at level 1,
   * a 1356-pixel canvas, four jobs and the file goes16-20230101T120000.png.
   */
  lemma Scenario1356()
    ensures var r := Prepare(BaseUrl, 1356, "20230101120000");
      r.Success? && r.value.plan == GridPlan(2, 1) && CanvasSide(r.value.plan) == 1356
      && |r.value.jobs| == 4 && r.value.outputName == "goes16-20230101T120000.png"
      && r.value.latest == Timestamp(2023, 1, 1, 12, 0, 0)
  {
    ParseScenario();
    OutputNameScenario();
    AllowedSizePlan(1356);
    assert FloorLog2(2) == 1;
  }

  /** The tile of cell x = 1, y = 0 in that grid: y comes first, each behind a literal "00". */
  lemma TileUrlScenario()
    ensures TileUrl(BaseUrl, Timestamp(2023, 1, 1, 12, 0, 0), 1, 1, 0)
      == BaseUrl + "/imagery/" + "2023/01/01" + ProductPath + "20230101120000" + "/01/000_001.png"
  {
    SegmentsScenario();
    assert NatToString(1) == "1" && NatToString(0) == "0";
    assert "/0" + "1" + "/00" + "0" + "_00" + "1" + ".png" == "/01/000_001.png";
  }
}
