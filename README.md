# goes16-background: a verified model of the tile pipeline

goes16-background downloads the latest GOES-16 full-disk natural-colour image
from the RAMMB slider tile server. The image comes as a square grid of tiles,
each 678 pixels on a side. The program stitches the tiles into one canvas,
saves it as `goes16-YYYYMMDDTHHMMSS.png` and sets it as the desktop
wallpaper. The whole job runs on a worker thread. The main thread watches it
with a deadline given in minutes.

This Dafny project models the integer and string logic inside
`goes16background/__main__.py` and proves properties about it:

- **Planner** (`planner.dfy`): the tile edge `TileSize = 678`, the output
  sizes the size option allows, and `tile_count` / `level` from a size. It also
  builds the job list that `it.product` produces, x outer and y inner.
- **Timestamps** (`timestamps.dfy`, `decimal.dfy`): `strptime(...,
  "%Y%m%d%H%M%S")` on the feed's 14-digit entry, and the `strftime` renderings
  used in the tile URL and the output file name. `decimal.dfy` holds `str()` of
  a number and two-digit zero padding.
- **Download** (`download.dfy`): the tile URL of `download_chunk` and the
  shared completion counter, a class with a `value` field. Each completion
  prints a progress message.
- **Assembler** (`assembler.dfy`): the canvas is an `array2` of abstract
  pixels, filled black. Each tile is pasted in place into its rectangle.
- **Watchdog** (`watchdog.dfy`): the deadline check of `parse_args`, the join
  timeout (with the `OverflowError` the join raises for a timeout too large),
  and the timeout verdict of `main`.
- **Pipeline** (`pipeline.dfy`): the pure preparation steps of `thread_main`
  chained in source order, plus the end-to-end scenario. That scenario is size
  1356 with the feed timestamp `20230101120000`.

The main proved facts:

- Every allowed size is a whole number of tiles. The tile count is 1, 2, 4, 8
  or 16, and the level is its exact base-2 logarithm.
- The job list holds each cell of the grid exactly once, in (x, y) order.
- Different jobs have different URLs.
- A 14-digit timestamp survives parsing and rendering unchanged.
- The message "completed." is printed exactly when the counter reaches the
  tile count squared.
- Each paste changes only its own rectangle.
- The finished canvas shows, at every pixel, the matching pixel of the tile
  that owns it, whatever order the tiles were pasted in.
- Deadline 0 never times out. A deadline of d minutes, up to 153722867,
  times out exactly when the worker needs more than 60·d seconds. A larger
  deadline makes the join raise `OverflowError`, and the process exits with
  status 1 whatever the worker does.

The worker's error exits (`exit_thread`) are meant to end the program with a
non-zero status. In fact a failure inside the worker thread ends only that
thread, and `main` then exits with status 0. The model follows the code and
records this under Findings.

## Model

| member | source | states |
|---|---|---|
| `Decimal.NatToString` | goes16background/__main__.py:87 | `str(n)` is a non-empty digit string with no leading zero; it has one digit exactly when n < 10 |
| `Decimal.NatToStringInjective` | goes16background/__main__.py:78 | different numbers print differently (via `ValueOfNatToString`: reading the text back gives the number) |
| `Decimal.Pad2Value` | goes16background/__main__.py:78 | the two-digit `strftime` field of v < 100 is all digits and reads back as v |
| `Decimal.Pad2OfValue` | goes16background/__main__.py:78 | any two-digit string is the two-digit field of its value |
| `Timestamps.Parse` | goes16background/__main__.py:105 | a parsed timestamp is a valid calendar date and time, taken from a 14-digit string |
| `Timestamps.FormatAfterParse` | goes16background/__main__.py:105 | a parsable feed entry with no leading zero renders back unchanged with `%Y%m%d%H%M%S`; the date segment is `YYYY/MM/DD` cut from it, and the file name is `goes16-` + its first 8 digits + `T` + its last 6 + `.png` |
| `Timestamps.ParseAfterFormat` | goes16background/__main__.py:78 | rendering a valid timestamp with a four-digit year and parsing the text gives back the same timestamp |
| `Planner.FloorLog2` | goes16background/__main__.py:101 | the level k satisfies 2^k <= tile_count < 2^(k+1) |
| `Planner.FloorLog2OfPow2` | goes16background/__main__.py:101 | the level of 2^k is k |
| `Planner.Plan` | goes16background/__main__.py:100-101 | it fails exactly for sizes below one tile (the `math.log(0, 2)` error); otherwise tile_count is the number of whole tiles in the size, and the level is the floor of its base-2 logarithm |
| `Planner.AllowedSizePlan` | goes16background/__main__.py:45 | each size choice is a multiple of 678, with tile_count in {1, 2, 4, 8, 16}, tile_count·678 = size, level <= 4 and 2^level = tile_count |
| `Planner.Product` | goes16background/__main__.py:122 | the product has len(xs)·len(ys) pairs |
| `Planner.ProductMembers` | goes16background/__main__.py:122 | a pair is in the product exactly when its first part is in xs and its second in ys |
| `Planner.ProductIncreasing` | goes16background/__main__.py:122 | the product of two increasing ranges is strictly increasing lexicographically, so the last factor varies fastest |
| `Planner.Jobs` | goes16background/__main__.py:122 | there are tile_count² jobs |
| `Planner.JobsCoverGrid` | goes16background/__main__.py:122 | every job lies in the grid and carries the shared base URL, timestamp, level and count; every cell (x, y) of the grid has its job |
| `Planner.JobsOrdered` | goes16background/__main__.py:122 | jobs are in (x, y) order, x the outer index and y the inner one |
| `Planner.JobsDistinct` | goes16background/__main__.py:122 | no job occurs twice |
| `Download.TileUrlInjective` | goes16background/__main__.py:77-78 | two tile URLs of one timestamp are equal only for the same level, x and y, with y written before x and each behind a literal `00` |
| `Download.JobUrlsDistinct` | goes16background/__main__.py:76-78 | the jobs of one grid fetch pairwise different URLs |
| `Download.CompletedIff` | goes16background/__main__.py:84-87 | the message is "Downloading tiles: completed." exactly when the count equals the total |
| `Download.ProgressMessageInjective` | goes16background/__main__.py:87 | different counts give different progress messages |
| `Download.RunMessages` | goes16background/__main__.py:82-87 | k completions print k messages |
| `Download.RunCompletesLast` | goes16background/__main__.py:82-87 | over all tile_count² completions of one grid, exactly the last message is "completed." |
| `Download.RunMessagesDistinct` | goes16background/__main__.py:82-87 | over all completions of one grid, no two messages are equal |
| `Download.CompletionCounter.constructor` | goes16background/__main__.py:98 | the counter starts at 0 |
| `Download.CompletionCounter.Complete` | goes16background/__main__.py:82-87 | the counter rises by exactly 1, and the message printed is for the new count: "completed." exactly when it equals tile_count² |
| `Assembler.Paste` | goes16background/__main__.py:126 | a tile of the wrong size fails and changes nothing; otherwise pixels in the tile's rectangle take the tile's pixels, and every other pixel keeps its value |
| `Assembler.Assemble` | goes16background/__main__.py:116-126 | the fresh canvas is 678·tile_count square; assembly succeeds exactly when every tile decodes and has the right size, and then each pixel is the result of pasting all tiles in list order onto black |
| `Assembler.RectsDisjoint` | goes16background/__main__.py:126 | rectangles of different cells do not overlap |
| `Assembler.RectsCoverCanvas` | goes16background/__main__.py:116-117 | each cell's rectangle lies inside the canvas, and every canvas pixel lies in the rectangle of cell (i div 678, j div 678) |
| `Assembler.PaintedOwner` | goes16background/__main__.py:124-126 | a pixel claimed by one result only shows that result's tile, wherever the result comes in the list |
| `Assembler.PaintedUnclaimed` | goes16background/__main__.py:118 | a pixel that no rectangle contains stays black |
| `Assembler.PasteOrderIrrelevant` | goes16background/__main__.py:124-125 | any list holding the same results for distinct cells gives the same canvas: paste order does not matter |
| `Assembler.AssembledPixel` | goes16background/__main__.py:120-126 | for the pool's results, one per job, canvas pixel (i, j) is pixel (i mod 678, j mod 678) of the tile of cell (i div 678, j div 678) |
| `Watchdog.CheckDeadline` | goes16background/__main__.py:67-68 | a deadline is refused with the source's message exactly when it is negative, and is otherwise kept |
| `Watchdog.JoinTimeout` | goes16background/__main__.py:179 | deadline 0 joins with no timeout; a deadline d joins for 60·d seconds |
| `Watchdog.Join` | goes16background/__main__.py:179-181 | the join raises `OverflowError` exactly for a timeout over 9223372036 seconds; after an unbounded join the worker is finished; after an accepted bounded one it is alive exactly when it needs longer than the timeout |
| `Watchdog.JoinAcceptsDeadline` | goes16background/__main__.py:179 | a positive deadline's join is accepted exactly when the deadline is at most 153722867 minutes |
| `Watchdog.TimedOut` | goes16background/__main__.py:181 | a timeout is reported only for a positive deadline and a live worker |
| `Watchdog.ExitStatus` | goes16background/__main__.py:182-185 | the status is 0 exactly for a finished run (`sys.exit(0)`), and 1 for each message exit and for the join's uncaught exception |
| `Watchdog.NegativeDeadlineRejected` | goes16background/__main__.py:67-68 | a negative deadline ends the program with the deadline message and status 1 |
| `Watchdog.ZeroDeadlineNeverTimesOut` | goes16background/__main__.py:179-182 | with deadline 0 the run finishes with status 0, whatever the worker's running time |
| `Watchdog.PositiveDeadline` | goes16background/__main__.py:179-182 | with deadline 0 < d <= 153722867 the verdict is "Timeout!" exactly when the worker runs longer than 60·d seconds, and finished otherwise |
| `Watchdog.HugeDeadlineCrashes` | goes16background/__main__.py:179 | a deadline over 153722867 minutes ends the process through the join's `OverflowError`, with status 1 |
| `Watchdog.LongerDeadlineNoWorse` | goes16background/__main__.py:179-182 | a run that finishes in time under one deadline also does under any longer one the join accepts |
| `Watchdog.WorkerFailureExitsZero` | goes16background/__main__.py:91-93 | as written, a worker that ends early through `exit_thread` still leaves the process with status 0 |
| `Watchdog.ReportingWorkerExitStatus` | goes16background/__main__.py:91-93 | with the correction, status 0 means exactly that the deadline was valid, accepted by the join and met, and the worker completed |
| `Pipeline.Prepare` | goes16background/__main__.py:100-122 | a successful preparation gives tile_count² jobs and as many URLs |
| `Pipeline.PrepareOk` | goes16background/__main__.py:100-160 | for an allowed size and a well-formed feed entry, preparation succeeds; the canvas has the requested size, the tile URLs are pairwise different, and the file name is cut from the feed's digits |
| `Pipeline.PrepareErrors` | goes16background/__main__.py:100-105 | a size below one tile fails with the math error before the feed is read; a feed entry `strptime` refuses fails next |
| `Pipeline.ParseScenario` | goes16background/__main__.py:105 | "20230101120000" parses as 2023-01-01 12:00:00 |
| `Pipeline.OutputNameScenario` | goes16background/__main__.py:160 | that timestamp names the file `goes16-20230101T120000.png` |
| `Pipeline.SegmentsScenario` | goes16background/__main__.py:78 | that timestamp renders as `2023/01/01` and `20230101120000` |
| `Pipeline.TileUrlScenario` | goes16background/__main__.py:77-78 | the URL of cell x = 1, y = 0 at level 1 ends in `/01/000_001.png` |
| `Pipeline.Scenario1356` | goes16background/__main__.py:100-122 | size 1356 with that feed entry gives a 2-by-2 grid at level 1, a 1356-pixel canvas, four jobs and the file `goes16-20230101T120000.png` |

## Left out

- HTTP fetching and its retries: `download` comes from `goes16background/utils.py`, which is not part of this model. So is the fetch of `latest_times.json` and its JSON decoding. The model starts from the feed's 14-digit entry.
- PNG decoding and encoding, and PIL's mode conversion on paste. Pixels are an abstract type, and a tile whose bytes do not decode arrives as `None`.
- The composite-over step (lines 109-114 and 130-155): it is floating-point geometry, `round()`, Lanczos resampling and a Gaussian blur, all done by the image library.
- The thread pool, the lock and the worker thread. Counter updates are modelled one at a time, as the lock serialises them. The watchdog is a pure decision over the deadline and the worker's running time.
- Filesystem work: removing old `goes16-*.png` files, `makedirs`, `path.join` with the output directory, and `save`.
- The external collaborators `set_background`, `get_desktop_environment` and `is_discharging`, with the battery exit they drive (lines 174-175). Also argument parsing, and all printing except the progress messages.
- `setup.py`: packaging metadata only.
- Download.CompletionCounter.Complete: the counter is a C `int` (`multiprocessing.Value("i")`), and its 32-bit wrap-around is not modelled, because at most 16² = 256 increments happen.
- Planner.FloorLog2: the level is the exact floor of log2. The source uses the floating-point `math.log`, which agrees on the allowed sizes; the size option accepts no others.
- Timestamps.Parse: only 14-digit ASCII inputs are accepted; for them the fixed-width reading is the only one `strptime` can make. The model returns `None` for every other text, although `strptime` accepts some: shorter texts with single-digit fields, the 14-character form with a space before a one-digit day (`202312 1120000` reads as 2023-12-01 12:00:00), and digits outside ASCII. The feed's entry is `str()` of an integer, so it is always ASCII digits.
- Timestamps.FormatAfterParse: `%Y` is modelled as the C library writes it, without padding. The round trip therefore needs a first digit other than 0, and this holds because the text is `str()` of the feed's integer.
- Watchdog.Join: time is counted in whole seconds. A worker that ends exactly at the timeout counts as finished; the real race at that instant is not modelled.
- Watchdog.Join: the limit `JoinLimit` is the 64-bit nanosecond bound of CPython's time conversion and of `PY_TIMEOUT_MAX` on POSIX threads. Other builds or versions with a different limit are not modelled. The traceback the uncaught `OverflowError` prints is reduced to one message line.
- Assembler.Assemble: when a tile fails, the method returns `ok = false` with the partly filled canvas. In the source the exception ends the worker and the canvas is dropped.

## Findings

| source | as written | input that shows it | evidently intended | confidence | as-written member | corrected member |
|---|---|---|---|---|---|---|
| goes16background/__main__.py:91-93 | `exit_thread` calls `sys.exit` on the worker thread. That ends only the worker. `main` then finds the worker finished and exits with status 0. | `--composite-over` naming an unreadable image, with the default deadline of 6 minutes: the worker stops at line 114 and the process still exits 0 | a worker failure message should end the process with a non-zero status | medium, not executed | `Watchdog.WorkerFailureExitsZero` (about `SuperviseAsWritten`) | `Watchdog.ReportingWorkerExitStatus` (about `SuperviseReportingWorker`) |
