/** One streaming pass over the lines of a file decoded under one encoding: the loop body of
    `LogProcessor.process_log` and of each encoding attempt in `try_backup_encodings`. Decoding
    is done before the pass: a line is its decoded text (with U+FFFD where bytes could not be
    decoded) and the byte size `len(line.encode(encoding))` the source adds to its
    processed-size counter. The pass is stated for any record function; the processor passes
    `ChatLine.ChatRecord`, the stripped line when it is a chat line. */
module Extraction {
  import opened Common

  /** U+FFFD, which permissive decoding puts in place of undecodable bytes. */
  const Replacement: char := '\U{FFFD}'

  /** How many garbled lines the first pass tolerates before turning to the backup encodings. */
  const PrimaryThreshold: nat := 100
  /** How many garbled lines one backup attempt tolerates before it is abandoned. */
  const BackupThreshold: nat := 50
  /** Progress is reported on every 1000th line of a large file. */
  const ProgressEvery: nat := 1000

  datatype Line = Line(text: string, size: nat)

  predicate IsGarbled(line: string) {
    Replacement in line
  }

  /** The records the first `k` lines yield, in line order. */
  function Records(lines: seq<Line>, recordOf: string -> seq<string>, k: nat): seq<string>
    requires k <= |lines|
  {
    if k == 0 then [] else Records(lines, recordOf, k - 1) + recordOf(lines[k - 1].text)
  }

  /** How many of the first `k` lines contain U+FFFD. */
  function Garbled(lines: seq<Line>, k: nat): nat
    requires k <= |lines|
  {
    if k == 0 then 0 else Garbled(lines, k - 1) + (if IsGarbled(lines[k - 1].text) then 1 else 0)
  }

  /** The sum of the byte sizes of the first `k` lines. */
  function Size(lines: seq<Line>, k: nat): nat
    requires k <= |lines|
  {
    if k == 0 then 0 else Size(lines, k - 1) + lines[k - 1].size
  }

  /** Progress percentage `min(99, processed * 100 / size)`, in whole percent. */
  function Percent(processed: nat, fileSize: nat): (p: nat)
    requires fileSize > 0
    ensures p <= 99
    ensures processed >= fileSize ==> p == 99
    ensures p * fileSize <= processed * 100
  {
    QuotientBounds(processed * 100, fileSize, 99);
    Min(99, processed * 100 / fileSize)
  }

  /** The whole quotient `n / d` times `d` is at most `n`, and so is any smaller count of
      `d`s; it is at least `c` when `n` holds `c` whole `d`s. */
  lemma QuotientBounds(n: nat, d: nat, c: nat)
    requires d > 0
    ensures (n / d) * d <= n
    ensures c <= n / d ==> c * d <= n
    ensures c * d <= n ==> c <= n / d
  {
    var q := n / d;
    assert n == q * d + n % d;
    if c <= q {
      MulMonotone(c, q, d);
    }
    if q < c {
      MulMonotone(q + 1, c, d);
      assert (q + 1) * d == q * d + d;
    }
  }

  lemma MulMonotone(a: nat, b: nat, d: nat)
    requires a <= b
    ensures a * d <= b * d
  {
    assert b * d == a * d + (b - a) * d;
  }

  /** What one pass needs besides the lines: the record function, the garbled-line threshold,
      the large-file flag, the file size, and `stopAt`, the first line whose stop poll reads the
      flag set (a value at or past the number of lines means the flag stays clear for the pass). */
  datatype PassConfig = PassConfig(
    recordOf: string -> seq<string>, threshold: nat, large: bool, fileSize: nat, stopAt: nat)

  datatype PassResult =
    | Completed(records: seq<string>, events: seq<nat>)
    | Stopped(records: seq<string>, events: seq<nat>)
    | Diverted(events: seq<nat>)
    | Crashed(events: seq<nat>)

  /** Line `j` (0-based) is a progress checkpoint. */
  predicate Checkpoint(cfg: PassConfig, j: nat) {
    cfg.large && (j + 1) % ProgressEvery == 0
  }

  predicate StopsAt(cfg: PassConfig, j: nat) {
    j >= cfg.stopAt
  }

  /** The progress division by a zero file size raises. */
  predicate CrashesAt(cfg: PassConfig, j: nat) {
    Checkpoint(cfg, j) && cfg.fileSize == 0
  }

  /** Line `j` is the garbled line that takes the count past the threshold. */
  predicate DivertsAt(lines: seq<Line>, cfg: PassConfig, j: nat)
    requires j < |lines|
  {
    IsGarbled(lines[j].text) && Garbled(lines, j + 1) > cfg.threshold
  }

  predicate ExitsAt(lines: seq<Line>, cfg: PassConfig, j: nat)
    requires j < |lines|
  {
    StopsAt(cfg, j) || CrashesAt(cfg, j) || DivertsAt(lines, cfg, j)
  }

  /** The first line at or after `from` at which the pass leaves its loop early. */
  function FirstExit(lines: seq<Line>, cfg: PassConfig, from: nat): (r: Option<nat>)
    decreases |lines| - from
    ensures r.Some? ==> from <= r.value < |lines| && ExitsAt(lines, cfg, r.value)
  {
    if from >= |lines| then None
    else if ExitsAt(lines, cfg, from) then Some(from)
    else FirstExit(lines, cfg, from + 1)
  }

  /** `FirstExit` skips no exit line. */
  lemma {:induction false} FirstExitIsFirst(lines: seq<Line>, cfg: PassConfig, from: nat)
    decreases |lines| - from
    ensures FirstExit(lines, cfg, from).Some? ==> forall j :: from <= j < FirstExit(lines, cfg, from).value ==> !ExitsAt(lines, cfg, j)
    ensures FirstExit(lines, cfg, from).None? ==> forall j :: from <= j < |lines| ==> !ExitsAt(lines, cfg, j)
  {
    if from < |lines| && !ExitsAt(lines, cfg, from) {
      FirstExitIsFirst(lines, cfg, from + 1);
    }
  }

  /** The progress percentages reported while reading the first `k` lines. */
  function Events(lines: seq<Line>, cfg: PassConfig, k: nat): seq<nat>
    requires k <= |lines|
    requires cfg.large && cfg.fileSize == 0 ==> k < ProgressEvery
  {
    if k == 0 then []
    else
      Events(lines, cfg, k - 1) +
      (if Checkpoint(cfg, k - 1) then [Percent(Size(lines, k - 1), cfg.fileSize)] else [])
  }

  /** No line before `k` crashes, so a large zero-size file has fewer than 1000 lines there. */
  lemma NoCrashBefore(lines: seq<Line>, cfg: PassConfig, k: nat)
    requires k <= |lines|
    requires forall j :: 0 <= j < k ==> !ExitsAt(lines, cfg, j)
    ensures cfg.large && cfg.fileSize == 0 ==> k < ProgressEvery
  {
    if cfg.large && cfg.fileSize == 0 && k >= ProgressEvery {
      assert CrashesAt(cfg, ProgressEvery - 1);
      assert ExitsAt(lines, cfg, ProgressEvery - 1);
    }
  }

  /** The outcome of one pass over `lines`. */
  function Pass(lines: seq<Line>, cfg: PassConfig): PassResult {
    FirstExitIsFirst(lines, cfg, 0);
    match FirstExit(lines, cfg, 0)
    case None =>
      NoCrashBefore(lines, cfg, |lines|);
      Completed(Records(lines, cfg.recordOf, |lines|), Events(lines, cfg, |lines|))
    case Some(i) =>
      NoCrashBefore(lines, cfg, i);
      if StopsAt(cfg, i) then Stopped(Records(lines, cfg.recordOf, i), Events(lines, cfg, i))
      else if CrashesAt(cfg, i) then Crashed(Events(lines, cfg, i))
      else Diverted(Events(lines, cfg, i + 1))
  }

  /** How many times the pass polls the stop flag. */
  function PassPolls(lines: seq<Line>, cfg: PassConfig): nat {
    match FirstExit(lines, cfg, 0)
    case None => |lines|
    case Some(i) => i + 1
  }

  /** The streaming loop (lines 235-270 for the first pass, 318-350 for a backup attempt). The
      first pass classifies a line before it counts its U+FFFD; a backup attempt counts first.
      The order is unobservable: a line that takes the count past the threshold ends the pass
      without its records either way. */
  method RunPass(lines: seq<Line>, cfg: PassConfig) returns (r: PassResult, polls: nat)
    ensures r == Pass(lines, cfg)
    ensures polls == PassPolls(lines, cfg)
  {
    var records: seq<string> := [];
    var events: seq<nat> := [];
    var processed: nat := 0;
    var lineErrors: nat := 0;
    var i := 0;
    while i < |lines|
      invariant i <= |lines|
      invariant FirstExit(lines, cfg, 0) == FirstExit(lines, cfg, i)
      invariant cfg.large && cfg.fileSize == 0 ==> i < ProgressEvery
      invariant records == Records(lines, cfg.recordOf, i)
      invariant lineErrors == Garbled(lines, i)
      invariant processed == Size(lines, i)
      invariant events == Events(lines, cfg, i)
    {
      if i >= cfg.stopAt {
        return Stopped(records, events), i + 1;
      }
      var lineNum := i + 1;
      if cfg.large && lineNum % ProgressEvery == 0 {
        if cfg.fileSize == 0 {
          return Crashed(events), i + 1;
        }
        events := events + [Percent(processed, cfg.fileSize)];
      }
      var line := lines[i];
      processed := processed + line.size;
      records := records + cfg.recordOf(line.text);
      if IsGarbled(line.text) {
        lineErrors := lineErrors + 1;
        if lineErrors > cfg.threshold {
          return Diverted(events), i + 1;
        }
      }
      i := i + 1;
    }
    return Completed(records, events), i;
  }

  // ---------------------------------------------------------------------------------------
  // Properties of the record list and the counters

  /** The records of the first `k` lines depend on those lines only. */
  lemma {:induction false} RecordsOfSameLines(xs: seq<Line>, ys: seq<Line>, f: string -> seq<string>, k: nat)
    requires k <= |xs| && k <= |ys|
    requires forall j :: 0 <= j < k ==> xs[j] == ys[j]
    ensures Records(xs, f, k) == Records(ys, f, k)
  {
    if k > 0 {
      RecordsOfSameLines(xs, ys, f, k - 1);
    }
  }

  /** Records of consecutive runs of lines concatenate: records keep source line order. */
  lemma {:induction false} RecordsAppend(a: seq<Line>, b: seq<Line>, f: string -> seq<string>, k: nat)
    requires k <= |b|
    ensures Records(a + b, f, |a| + k) == Records(a, f, |a|) + Records(b, f, k)
  {
    if k == 0 {
      RecordsOfSameLines(a + b, a, f, |a|);
    } else {
      RecordsAppend(a, b, f, k - 1);
      assert (a + b)[|a| + k - 1] == b[k - 1];
    }
  }

  /** A value is among the records exactly when some line among the first `k` yields it. */
  lemma {:induction false} RecordsFromLines(lines: seq<Line>, f: string -> seq<string>, k: nat)
    requires k <= |lines|
    ensures forall x :: x in Records(lines, f, k) <==> exists i :: 0 <= i < k && x in f(lines[i].text)
  {
    if k > 0 {
      RecordsFromLines(lines, f, k - 1);
    }
  }

  /** The garbled count only grows as more lines are read. */
  lemma {:induction false} GarbledMonotone(lines: seq<Line>, j: nat, k: nat)
    requires j <= k <= |lines|
    ensures Garbled(lines, j) <= Garbled(lines, k)
    decreases k - j
  {
    if j < k {
      GarbledMonotone(lines, j, k - 1);
    }
  }

  /** When more than `t` of the first `k` lines are garbled, one of them is the (t+1)-th. */
  lemma {:induction false} CrossingLine(lines: seq<Line>, k: nat, t: nat)
    requires k <= |lines| && Garbled(lines, k) > t
    ensures exists j :: 0 <= j < k && IsGarbled(lines[j].text) && Garbled(lines, j) == t && Garbled(lines, j + 1) == t + 1
  {
    if Garbled(lines, k - 1) > t {
      CrossingLine(lines, k - 1, t);
    } else {
      assert IsGarbled(lines[k - 1].text);
    }
  }

  /** Before the first exit the garbled count stays within the threshold. */
  lemma {:induction false} CountWithinThreshold(lines: seq<Line>, cfg: PassConfig, k: nat)
    requires k <= |lines|
    requires forall j :: 0 <= j < k ==> !ExitsAt(lines, cfg, j)
    ensures Garbled(lines, k) <= cfg.threshold
  {
    if k > 0 {
      CountWithinThreshold(lines, cfg, k - 1);
      assert !ExitsAt(lines, cfg, k - 1);
    }
  }

  // ---------------------------------------------------------------------------------------
  // Properties of one pass

  /** The conditions under which no line of a pass is an exit line. */
  predicate RunsToEnd(lines: seq<Line>, cfg: PassConfig) {
    && cfg.stopAt >= |lines|
    && !(cfg.large && cfg.fileSize == 0 && |lines| >= ProgressEvery)
    && Garbled(lines, |lines|) <= cfg.threshold
  }

  lemma CompletedRunsToEnd(lines: seq<Line>, cfg: PassConfig)
    requires FirstExit(lines, cfg, 0).None?
    ensures RunsToEnd(lines, cfg)
  {
    FirstExitIsFirst(lines, cfg, 0);
    CountWithinThreshold(lines, cfg, |lines|);
    if |lines| > 0 {
      assert !ExitsAt(lines, cfg, |lines| - 1);
    }
    NoCrashBefore(lines, cfg, |lines|);
  }

  lemma RunsToEndCompletes(lines: seq<Line>, cfg: PassConfig)
    requires RunsToEnd(lines, cfg)
    ensures FirstExit(lines, cfg, 0).None?
  {
    if FirstExit(lines, cfg, 0).Some? {
      var i := FirstExit(lines, cfg, 0).value;
      assert !StopsAt(cfg, i);
      if !CrashesAt(cfg, i) {
        GarbledMonotone(lines, i + 1, |lines|);
      }
    }
  }

  /** A pass reads every line to the end exactly when the stop flag stays clear for all of its
      lines, the progress division never meets a zero size, and at most `threshold` lines are
      garbled; it then yields the records of all lines. */
  lemma PassCompletesIff(lines: seq<Line>, cfg: PassConfig)
    ensures Pass(lines, cfg).Completed? <==> RunsToEnd(lines, cfg)
    ensures Pass(lines, cfg).Completed? ==> Pass(lines, cfg).records == Records(lines, cfg.recordOf, |lines|)
  {
    if FirstExit(lines, cfg, 0).None? {
      CompletedRunsToEnd(lines, cfg);
    } else if RunsToEnd(lines, cfg) {
      RunsToEndCompletes(lines, cfg);
    }
  }

  /** A pass that is stopped stops exactly at line `stopAt`, having polled `stopAt + 1` times,
      with the records of the lines before it; no earlier line took the garbled count past the
      threshold. */
  lemma PassStopsAtStopLine(lines: seq<Line>, cfg: PassConfig)
    requires Pass(lines, cfg).Stopped?
    ensures cfg.stopAt < |lines|
    ensures PassPolls(lines, cfg) == cfg.stopAt + 1
    ensures Pass(lines, cfg).records == Records(lines, cfg.recordOf, cfg.stopAt)
    ensures Garbled(lines, cfg.stopAt) <= cfg.threshold
  {
    assert FirstExit(lines, cfg, 0).Some?;
    var i := FirstExit(lines, cfg, 0).value;
    assert StopsAt(cfg, i);
    FirstExitIsFirst(lines, cfg, 0);
    if cfg.stopAt < i {
      assert ExitsAt(lines, cfg, cfg.stopAt);
    }
    assert i == cfg.stopAt;
    CountWithinThreshold(lines, cfg, i);
  }

  /** A pass is diverted by the garbled line that brings the count to `threshold + 1` (the
      101st in the first pass, the 51st in a backup attempt), before the stop flag is seen, and
      that line is the last one the pass polls for. */
  lemma PassDivertsOnCrossing(lines: seq<Line>, cfg: PassConfig)
    requires Pass(lines, cfg).Diverted?
    ensures exists j ::
      && 0 <= j < |lines| && j < cfg.stopAt && IsGarbled(lines[j].text)
      && Garbled(lines, j) == cfg.threshold && Garbled(lines, j + 1) == cfg.threshold + 1
      && PassPolls(lines, cfg) == j + 1
  {
    var i := FirstExit(lines, cfg, 0).value;
    FirstExitIsFirst(lines, cfg, 0);
    CountWithinThreshold(lines, cfg, i);
    assert DivertsAt(lines, cfg, i);
    assert PassPolls(lines, cfg) == i + 1;
  }

  /** Conversely, a pass that reaches the garbled line bringing the count to `threshold + 1`
      before its stop line, without a progress checkpoint of a zero-size file up to it, is
      diverted by that line and polls for no line after it. */
  lemma CrossingLineDivertsPass(lines: seq<Line>, cfg: PassConfig, j: nat)
    requires j < |lines| && j < cfg.stopAt
    requires IsGarbled(lines[j].text) && Garbled(lines, j) == cfg.threshold
    requires !(cfg.large && cfg.fileSize == 0 && j + 1 >= ProgressEvery)
    ensures Pass(lines, cfg).Diverted?
    ensures PassPolls(lines, cfg) == j + 1
  {
    assert DivertsAt(lines, cfg, j) && ExitsAt(lines, cfg, j);
    FirstExitIsFirst(lines, cfg, 0);
    var i := FirstExit(lines, cfg, 0).value;
    if i < j {
      assert !StopsAt(cfg, i) && !CrashesAt(cfg, i);
      GarbledMonotone(lines, i + 1, j);
      assert false;
    }
    assert !CrashesAt(cfg, j);
  }

  /** Progress is reported once per 1000 lines of a large file, never above 99. */
  lemma {:induction false} EventsShape(lines: seq<Line>, cfg: PassConfig, k: nat)
    requires k <= |lines|
    requires cfg.large && cfg.fileSize == 0 ==> k < ProgressEvery
    ensures |Events(lines, cfg, k)| == if cfg.large then k / ProgressEvery else 0
    ensures forall e :: e in Events(lines, cfg, k) ==> e <= 99
  {
    if k > 0 {
      EventsShape(lines, cfg, k - 1);
      assert k / ProgressEvery == (k - 1) / ProgressEvery + (if k % ProgressEvery == 0 then 1 else 0);
    }
  }

  /** Whatever the pass ends with, its progress reports are percentages of at most 99. */
  lemma PassEventsBelowDone(lines: seq<Line>, cfg: PassConfig)
    ensures forall e :: e in Pass(lines, cfg).events ==> e <= 99
  {
    FirstExitIsFirst(lines, cfg, 0);
    match FirstExit(lines, cfg, 0)
    case None =>
      NoCrashBefore(lines, cfg, |lines|);
      EventsShape(lines, cfg, |lines|);
    case Some(i) =>
      NoCrashBefore(lines, cfg, i);
      EventsShape(lines, cfg, i);
      if !StopsAt(cfg, i) && !CrashesAt(cfg, i) {
        EventsShape(lines, cfg, i + 1);
      }
  }

  /** Every record a finished or stopped pass returns is a record of one of its lines. */
  lemma PassRecordsFromLines(lines: seq<Line>, cfg: PassConfig)
    requires Pass(lines, cfg).Completed? || Pass(lines, cfg).Stopped?
    ensures forall x :: x in Pass(lines, cfg).records ==>
      exists i :: 0 <= i < |lines| && x in cfg.recordOf(lines[i].text)
  {
    if Pass(lines, cfg).Completed? {
      PassCompletesIff(lines, cfg);
      RecordsFromLines(lines, cfg.recordOf, |lines|);
    } else {
      PassStopsAtStopLine(lines, cfg);
      RecordsFromLines(lines, cfg.recordOf, cfg.stopAt);
    }
  }

  /** A pass reaching its stop line with at most `threshold` garbled lines before it, and without
      meeting a progress checkpoint of a zero-size file, stops there. */
  lemma StopLineStopsPass(lines: seq<Line>, cfg: PassConfig)
    requires cfg.stopAt < |lines|
    requires Garbled(lines, cfg.stopAt) <= cfg.threshold
    requires !(cfg.large && cfg.fileSize == 0 && cfg.stopAt >= ProgressEvery)
    ensures Pass(lines, cfg).Stopped?
    ensures Pass(lines, cfg).records == Records(lines, cfg.recordOf, cfg.stopAt)
  {
    assert ExitsAt(lines, cfg, cfg.stopAt);
    FirstExitIsFirst(lines, cfg, 0);
    var i := FirstExit(lines, cfg, 0).value;
    if i < cfg.stopAt {
      assert !StopsAt(cfg, i) && !CrashesAt(cfg, i);
      GarbledMonotone(lines, i + 1, cfg.stopAt);
      assert false;
    }
    assert StopsAt(cfg, i);
  }
}
