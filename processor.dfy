/** `LogProcessor.process_log`, `count_lines` and `try_backup_encodings`: one log file in,
    its chat records or an error out, with the progress percentages reported on the way.

    The stop flag is set from elsewhere and never cleared while a file is processed, so every
    run is described by `stopAfter`: the number of stop polls that read the flag clear before
    the first one that reads it set (a value beyond the number of polls means it stays clear).
    Polls are counted in program order: the entry check (poll 0), one per candidate of the
    best-encoding search, one per chunk of the line count, one per line of the first pass, the
    entry check of the backup search, and then one per encoding attempt followed by one per
    line of that attempt. */
module Processor {
  import opened Common
  import opened Text
  import opened ArgMax
  import opened ChatLine
  import opened Extraction
  import opened Encoding

  /** The line count is read in chunks of 1 MiB. */
  const ChunkSize: nat := 1024 * 1024
  /** Files above 10 MiB are large. */
  const LargeSize: nat := 10 * 1024 * 1024
  /** Files above 100000 lines are large. */
  const LargeLineCount: nat := 100000
  /** Less free space than 100 MiB in the file's directory refuses the file. */
  const MinFreeSpace: nat := 100 * 1024 * 1024
  /** The percentage reported when a file is done. */
  const Done: nat := 100

  /** A log file: its bytes, and the free space of the disk it is on. */
  datatype LogFile = LogFile(bytes: seq<Byte>, freeSpace: nat)

  /** Why a file yields no records (the source returns a message string for each). */
  datatype Error =
    | StopRequested
    | InsufficientDiskSpace(free: nat)
    | ProcessingFailed
    | AllBackupsFailed

  /** `(file_path, records, error)` as `process_log` returns it, with the progress reported. */
  datatype Outcome = Outcome(records: seq<string>, error: Option<Error>, events: seq<nat>)

  // ---------------------------------------------------------------------------------------
  // count_lines

  function Newlines(bytes: seq<Byte>): nat {
    if bytes == [] then 0 else Newlines(bytes[..|bytes| - 1]) + (if bytes[|bytes| - 1] == 10 then 1 else 0)
  }

  lemma {:induction false} NewlinesAppend(a: seq<Byte>, b: seq<Byte>)
    ensures Newlines(a + b) == Newlines(a) + Newlines(b)
    decreases |b|
  {
    if b == [] {
      assert a + b == a;
    } else {
      NewlinesAppend(a, b[..|b| - 1]);
      assert (a + b)[..|a + b| - 1] == a + b[..|b| - 1];
    }
  }

  /** How many chunks a file of `n` bytes is read in. */
  function ChunkCount(n: nat): nat {
    (n + ChunkSize - 1) / ChunkSize
  }

  /** A file of `n` bytes has more than `c` chunks exactly when `c` whole chunks do not reach
      its end; all its chunks together cover it. */
  lemma ChunkCountFacts(n: nat, c: nat)
    ensures ChunkSize * c < n <==> c < ChunkCount(n)
    ensures ChunkSize * ChunkCount(n) >= n
  {
    var q := ChunkCount(n);
    assert q * ChunkSize <= n + ChunkSize - 1 < (q + 1) * ChunkSize;
    if c < q {
      assert ChunkSize * c + ChunkSize <= ChunkSize * q;
    } else {
      assert ChunkSize * c >= ChunkSize * q;
    }
  }

  /** The chunk after the first `polls` of a file of `n` bytes, when they do not reach its end,
      ends where `polls + 1` chunks end. */
  lemma NextChunk(n: nat, polls: nat)
    requires ChunkSize * polls < n
    ensures Min(n, ChunkSize * polls + ChunkSize) == Min(n, ChunkSize * (polls + 1))
    ensures polls + 1 <= ChunkCount(n)
    ensures ChunkSize * (polls + 1) < n <==> polls + 1 < ChunkCount(n)
  {
    ChunkCountFacts(n, polls);
    ChunkCountFacts(n, polls + 1);
  }

  /** The stop polls the line count makes: one after each chunk, until one reads the flag set. */
  function CountPolls(n: nat, stopAt: nat): nat {
    Min(ChunkCount(n), stopAt + 1)
  }

  /** The newlines in the chunks read before the count ends. */
  function CountedLines(bytes: seq<Byte>, stopAt: nat): nat {
    Newlines(bytes[..Min(|bytes|, ChunkSize * CountPolls(|bytes|, stopAt))])
  }

  /** `count_lines` (lines 98-115). */
  method CountLines(bytes: seq<Byte>, stopAt: nat) returns (lines: nat, polls: nat)
    ensures lines == CountedLines(bytes, stopAt)
    ensures polls == CountPolls(|bytes|, stopAt)
  {
    lines := 0;
    polls := 0;
    var pos := 0;
    ChunkCountFacts(|bytes|, 0);
    while pos < |bytes|
      invariant pos == Min(|bytes|, ChunkSize * polls)
      invariant polls <= stopAt && polls <= ChunkCount(|bytes|)
      invariant pos < |bytes| <==> polls < ChunkCount(|bytes|)
      invariant lines == Newlines(bytes[..pos])
    {
      NextChunk(|bytes|, polls);
      var end := Min(|bytes|, pos + ChunkSize);
      assert bytes[..end] == bytes[..pos] + bytes[pos..end];
      NewlinesAppend(bytes[..pos], bytes[pos..end]);
      lines := lines + Newlines(bytes[pos..end]);
      pos := end;
      if polls >= stopAt {
        return lines, polls + 1;
      }
      polls := polls + 1;
    }
  }

  /** The count is the number of newlines in the file unless a stop cuts it short before the
      last chunk, and never more. */
  lemma CountedLinesBound(bytes: seq<Byte>, stopAt: nat)
    ensures CountedLines(bytes, stopAt) <= Newlines(bytes)
    ensures stopAt + 1 >= ChunkCount(|bytes|) ==> CountedLines(bytes, stopAt) == Newlines(bytes)
  {
    var end := Min(|bytes|, ChunkSize * CountPolls(|bytes|, stopAt));
    assert bytes == bytes[..end] + bytes[end..];
    NewlinesAppend(bytes[..end], bytes[end..]);
    if stopAt + 1 >= ChunkCount(|bytes|) {
      ChunkCountFacts(|bytes|, ChunkCount(|bytes|));
    }
  }

  // ---------------------------------------------------------------------------------------
  // try_backup_encodings

  function PrimaryConfig(large: bool, fileSize: nat, stopAt: nat): PassConfig {
    PassConfig(ChatRecord, PrimaryThreshold, large, fileSize, stopAt)
  }

  function BackupConfig(large: bool, fileSize: nat, stopAt: nat): PassConfig {
    PassConfig(ChatRecord, BackupThreshold, large, fileSize, stopAt)
  }

  /** The file read under each backup encoding, in list order. */
  function Decodings(codecs: Codecs, bytes: seq<Byte>): (runs: seq<seq<Line>>)
    ensures |runs| == |BackupEncodings|
  {
    seq(|BackupEncodings|, k requires 0 <= k < |BackupEncodings| => codecs.decodeLines(BackupEncodings[k], bytes))
  }

  /** One attempt as the search sees it: from the file read under an encoding and `stopAt`,
      the first of its lines whose stop poll reads the flag set, the pass result and the number
      of polls the pass made. */
  type Runner = (seq<Line>, nat) -> (PassResult, nat)

  /** The attempt `try_backup_encodings` makes: a pass with the backup threshold. */
  function BackupRun(large: bool, fileSize: nat): Runner {
    (lines: seq<Line>, stopAt: nat) =>
      var cfg := BackupConfig(large, fileSize, stopAt);
      (Pass(lines, cfg), PassPolls(lines, cfg))
  }

  /** The attempts from encoding `k` on, `t` polls into the search, whose polls from `budget`
      on read the flag set: each attempt is one poll followed by a run. */
  function Attempts(run: Runner, runs: seq<seq<Line>>, budget: nat, k: nat, t: nat): (rs: seq<PassResult>)
    requires k <= |runs|
    decreases |runs| - k
    ensures |rs| <= |runs| - k
  {
    if k == |runs| || t >= budget then []
    else
      var attempt := run(runs[k], budget - t - 1);
      [attempt.0] + Attempts(run, runs, budget, k + 1, t + 1 + attempt.1)
  }

  /** The records an attempt offers: an attempt abandoned for garbling or an exception offers
      none, a stopped one what it had read so far. */
  function Kept(r: PassResult): seq<string> {
    match r
    case Completed(records, _) => records
    case Stopped(records, _) => records
    case Diverted(_) => []
    case Crashed(_) => []
  }

  function Counts(rs: seq<PassResult>): (cs: seq<real>)
    ensures |cs| == |rs|
  {
    seq(|rs|, i requires 0 <= i < |rs| => |Kept(rs[i])| as real)
  }

  function AllEvents(rs: seq<PassResult>): seq<nat> {
    if rs == [] then [] else AllEvents(rs[..|rs| - 1]) + rs[|rs| - 1].events
  }

  /** `done` are the results of the attempts before encoding `k`, made within `t` polls, and
      `all` is what the whole search yields. */
  ghost predicate SearchedSoFar(run: Runner, runs: seq<seq<Line>>, budget: nat, k: nat, t: nat,
                                done: seq<PassResult>, all: seq<PassResult>)
  {
    k <= |runs| && done + Attempts(run, runs, budget, k, t) == all
  }

  /** An attempt that is made: one poll, then a run whose own polls are counted after it. */
  lemma AttemptMade(run: Runner, runs: seq<seq<Line>>, budget: nat, k: nat, t: nat,
                    done: seq<PassResult>, all: seq<PassResult>, r: PassResult, t': nat)
    requires SearchedSoFar(run, runs, budget, k, t, done, all)
    requires k < |runs| && t < budget
    requires r == run(runs[k], budget - t - 1).0
    requires t' == t + 1 + run(runs[k], budget - t - 1).1
    ensures SearchedSoFar(run, runs, budget, k + 1, t', done + [r], all)
  {
    var next := Attempts(run, runs, budget, k + 1, t');
    assert Attempts(run, runs, budget, k, t) == [r] + next;
    assert (done + [r]) + next == done + ([r] + next);
  }

  /** Once the encodings run out or a poll reads the flag set, nothing more is attempted. */
  lemma SearchEnded(run: Runner, runs: seq<seq<Line>>, budget: nat, k: nat, t: nat,
                    done: seq<PassResult>, all: seq<PassResult>)
    requires SearchedSoFar(run, runs, budget, k, t, done, all)
    requires k == |runs| || t >= budget
    ensures done == all
  {
    assert done + [] == done;
  }

  /** The records of the leading attempt among `rs` (none when no attempt kept any). */
  function BestKept(rs: seq<PassResult>): seq<string> {
    match Leader(Counts(rs))
    case None => []
    case Some(i) => Kept(rs[i])
  }

  /** Adding one attempt's result: its events follow the earlier ones, and its records become
      the best exactly when they are strictly more than the best so far. */
  lemma AttemptRecorded(done: seq<PassResult>, r: PassResult)
    ensures AllEvents(done + [r]) == AllEvents(done) + r.events
    ensures BestKept(done + [r]) == if |Kept(r)| > |BestKept(done)| then Kept(r) else BestKept(done)
  {
    var rs := done + [r];
    assert rs[..|done|] == done;
    assert Counts(rs) == Counts(done) + [|Kept(r)| as real];
    LeaderSnoc(Counts(done), |Kept(r)| as real);
    match Leader(Counts(done))
    case None =>
    case Some(i) => assert rs[i] == done[i];
  }

  /** What the backup search returns, `budget` being its own poll budget: the best records if
      any attempt kept some, and otherwise the failure. */
  function BackupOutcome(run: Runner, runs: seq<seq<Line>>, budget: nat): Outcome {
    if budget == 0 then Outcome([], Some(StopRequested), [])
    else
      var rs := Attempts(run, runs, budget - 1, 0, 0);
      var best := BestKept(rs);
      if best == [] then Outcome([], Some(AllBackupsFailed), AllEvents(rs))
      else Outcome(best, None, AllEvents(rs) + [Done])
  }

  /** One attempt of the backup search: the file read under encoding `k`, then a pass whose
      stop poll first reads the flag set at line `stopAt`. */
  method Attempt(codecs: Codecs, bytes: seq<Byte>, large: bool, k: nat, stopAt: nat)
    returns (r: PassResult, polls: nat)
    requires k < |BackupEncodings|
    ensures r == BackupRun(large, |bytes|)(Decodings(codecs, bytes)[k], stopAt).0
    ensures polls == BackupRun(large, |bytes|)(Decodings(codecs, bytes)[k], stopAt).1
  {
    var lines := codecs.decodeLines(BackupEncodings[k], bytes);
    r, polls := RunPass(lines, BackupConfig(large, |bytes|, stopAt));
  }

  /** One turn of the backup loop once its stop poll reads the flag clear: the attempt with
      encoding `k`, and the poll count after it. */
  method TryEncoding(codecs: Codecs, bytes: seq<Byte>, large: bool, rest: nat, k: nat, t: nat,
                     ghost done: seq<PassResult>, ghost all: seq<PassResult>)
    returns (r: PassResult, next: nat)
    requires SearchedSoFar(BackupRun(large, |bytes|), Decodings(codecs, bytes), rest, k, t, done, all)
    requires k < |BackupEncodings| && t < rest
    ensures SearchedSoFar(BackupRun(large, |bytes|), Decodings(codecs, bytes), rest, k + 1, next, done + [r], all)
  {
    var polls;
    r, polls := Attempt(codecs, bytes, large, k, rest - t - 1);
    next := t + 1 + polls;
    AttemptMade(BackupRun(large, |bytes|), Decodings(codecs, bytes), rest, k, t, done, all, r, next);
  }

  /** The loop over the backup encodings (lines 305-359), `rest` being its poll budget: the
      best records and every progress report of the attempts it makes. */
  method Search(codecs: Codecs, bytes: seq<Byte>, large: bool, rest: nat) returns (best: seq<string>, events: seq<nat>)
    ensures var rs := Attempts(BackupRun(large, |bytes|), Decodings(codecs, bytes), rest, 0, 0);
      best == BestKept(rs) && events == AllEvents(rs)
  {
    ghost var all := Attempts(BackupRun(large, |bytes|), Decodings(codecs, bytes), rest, 0, 0);
    ghost var done: seq<PassResult> := [];
    best := [];
    events := [];
    var k: nat := 0;
    var t: nat := 0;
    while k < |BackupEncodings|
      invariant |done| == k
      invariant SearchedSoFar(BackupRun(large, |bytes|), Decodings(codecs, bytes), rest, k, t, done, all)
      invariant best == BestKept(done)
      invariant events == AllEvents(done)
    {
      if t >= rest {
        break;
      }
      var r, next := TryEncoding(codecs, bytes, large, rest, k, t, done, all);
      AttemptRecorded(done, r);
      var kept := Kept(r);
      if |kept| > |best| {
        best := kept;
      }
      events := events + r.events;
      done := done + [r];
      t := next;
      k := k + 1;
    }
    SearchEnded(BackupRun(large, |bytes|), Decodings(codecs, bytes), rest, k, t, done, all);
  }

  /** `try_backup_encodings` (lines 293-372). */
  method TryBackup(codecs: Codecs, bytes: seq<Byte>, large: bool, budget: nat) returns (o: Outcome)
    ensures o == BackupOutcome(BackupRun(large, |bytes|), Decodings(codecs, bytes), budget)
  {
    if budget == 0 {
      return Outcome([], Some(StopRequested), []);
    }
    var best, events := Search(codecs, bytes, large, budget - 1);
    if best != [] {
      return Outcome(best, None, events + [Done]);
    }
    return Outcome([], Some(AllBackupsFailed), events);
  }

  // ---------------------------------------------------------------------------------------
  // process_log

  /** The large-file test: more than 10 MiB, or more than 100000 counted lines. */
  predicate IsLarge(fileSize: nat, lineCount: nat) {
    fileSize > LargeSize || lineCount > LargeLineCount
  }

  /** How `process_log` ends after its first pass `r`, `ev0` being the progress reported
      before it and `b` what the backup search would return: records on completion, nothing on a
      stop or an exception, and the backup search's result when the pass gives up. */
  function Finish(r: PassResult, ev0: seq<nat>, b: Outcome): Outcome {
    match r
    case Completed(records, ev) => Outcome(records, None, ev0 + ev + [Done])
    case Stopped(_, ev) => Outcome([], Some(StopRequested), ev0 + ev)
    case Crashed(ev) => Outcome([], Some(ProcessingFailed), ev0 + ev)
    case Diverted(ev) => Outcome(b.records, b.error, ev0 + ev + b.events)
  }

  /** What `process_log` does once the encoding is chosen and the file classified: the
      free-space check, the failure of `open` on an encoding Python does not know, the first pass with the stop flag first read set at line `stopAt`, and
      the backup search if that pass gives up. `ev0` is the progress reported before. */
  function Extract(codecs: Codecs, file: LogFile, encoding: string, large: bool, stopAt: nat, ev0: seq<nat>): Outcome {
    var bytes := file.bytes;
    if file.freeSpace < MinFreeSpace then Outcome([], Some(InsufficientDiskSpace(file.freeSpace)), ev0)
    else if !codecs.hasCodec(encoding) then Outcome([], Some(ProcessingFailed), ev0)
    else
      var lines := codecs.decodeLines(encoding, bytes);
      var cfg := PrimaryConfig(large, |bytes|, stopAt);
      var backup := BackupOutcome(BackupRun(large, |bytes|), Decodings(codecs, bytes), Since(stopAt, PassPolls(lines, cfg)));
      Finish(Pass(lines, cfg), ev0, backup)
  }

  /** What `process_log` returns for `file` when its first `stopAfter` stop polls read the flag
      clear: the entry check, encoding detection, the line count and the large-file report,
      then `Extract`. */
  function Processing(codecs: Codecs, file: LogFile, stopAfter: nat): Outcome {
    if stopAfter == 0 then Outcome([], Some(StopRequested), [])
    else
      var bytes := file.bytes;
      var detected := Detection(codecs, bytes, stopAfter - 1);
      var encoding := detected.0;
      var p1 := 1 + detected.1;
      var lineCount := CountedLines(bytes, Since(stopAfter, p1));
      var p2 := p1 + CountPolls(|bytes|, Since(stopAfter, p1));
      var large := |bytes| > LargeSize || lineCount > LargeLineCount;
      Extract(codecs, file, encoding, large, Since(stopAfter, p2), if large then [0] else [])
  }

  /** The part of `process_log` from the free-space check on (lines 220-291). */
  method ExtractRecords(codecs: Codecs, file: LogFile, encoding: string, large: bool, stopAt: nat, ev0: seq<nat>)
    returns (o: Outcome)
    ensures o == Extract(codecs, file, encoding, large, stopAt, ev0)
  {
    var bytes := file.bytes;
    if file.freeSpace < MinFreeSpace {
      return Outcome([], Some(InsufficientDiskSpace(file.freeSpace)), ev0);
    }
    if !codecs.hasCodec(encoding) {
      return Outcome([], Some(ProcessingFailed), ev0);
    }
    var lines := codecs.decodeLines(encoding, bytes);
    var r, polls := RunPass(lines, PrimaryConfig(large, |bytes|, stopAt));
    match r
    case Completed(records, ev) =>
      o := Outcome(records, None, ev0 + ev + [Done]);
    case Stopped(_, ev) =>
      o := Outcome([], Some(StopRequested), ev0 + ev);
    case Crashed(ev) =>
      o := Outcome([], Some(ProcessingFailed), ev0 + ev);
    case Diverted(ev) =>
      var b := TryBackup(codecs, bytes, large, Since(stopAt, polls));
      o := Outcome(b.records, b.error, ev0 + ev + b.events);
  }

  /** `process_log` (lines 201-218). */
  method ProcessLog(codecs: Codecs, file: LogFile, stopAfter: nat) returns (o: Outcome)
    ensures o == Processing(codecs, file, stopAfter)
  {
    if stopAfter == 0 {
      return Outcome([], Some(StopRequested), []);
    }
    var bytes := file.bytes;
    var encoding, p0 := DetectEncoding(codecs, bytes, stopAfter - 1);
    var p1 := 1 + p0;
    var lineCount, countPolls := CountLines(bytes, Since(stopAfter, p1));
    var p2 := p1 + countPolls;
    var large := |bytes| > LargeSize || lineCount > LargeLineCount;
    var events: seq<nat> := [];
    if large {
      events := [0];
    }
    assert large == IsLarge(|bytes|, lineCount);
    assert events == if large then [0] else [];
    o := ExtractRecords(codecs, file, encoding, large, Since(stopAfter, p2), events);
  }

  // ---------------------------------------------------------------------------------------
  // Properties of the backup search

  /** `x` is a chat line of `lines`, stripped. */
  ghost predicate ChatLineOf(lines: seq<Line>, x: string) {
    exists j :: 0 <= j < |lines| && IsChatLine(lines[j].text, Prefixes) && x == Strip(lines[j].text)
  }

  /** A stopped run's own stop poll is its last. */
  ghost predicate StopEndsRun(run: Runner) {
    forall lines: seq<Line>, stopAt: nat :: run(lines, stopAt).0.Stopped? ==> run(lines, stopAt).1 == stopAt + 1
  }

  /** A run keeps only chat lines of the lines it reads. */
  ghost predicate KeepsChatLines(run: Runner) {
    forall lines: seq<Line>, stopAt: nat, x :: x in Kept(run(lines, stopAt).0) ==> ChatLineOf(lines, x)
  }

  /** A run reports percentages of at most 99. */
  ghost predicate ReportsBelowDone(run: Runner) {
    forall lines: seq<Line>, stopAt: nat, e :: e in run(lines, stopAt).0.events ==> e <= 99
  }

  lemma PassKeepsChatLines(lines: seq<Line>, cfg: PassConfig)
    requires cfg.recordOf == ChatRecord
    ensures forall x :: x in Kept(Pass(lines, cfg)) ==> ChatLineOf(lines, x)
  {
    var r := Pass(lines, cfg);
    if r.Completed? || r.Stopped? {
      PassRecordsFromLines(lines, cfg);
      forall x | x in r.records
        ensures ChatLineOf(lines, x)
      {
        var i :| 0 <= i < |lines| && x in ChatRecord(lines[i].text);
        assert IsChatLine(lines[i].text, Prefixes) && x == Strip(lines[i].text);
      }
    }
  }

  /** The backup attempt stops on its last poll, keeps chat lines only, and reports at most 99. */
  lemma BackupRunProperties(large: bool, fileSize: nat)
    ensures StopEndsRun(BackupRun(large, fileSize))
    ensures KeepsChatLines(BackupRun(large, fileSize))
    ensures ReportsBelowDone(BackupRun(large, fileSize))
  {
    var run := BackupRun(large, fileSize);
    forall lines: seq<Line>, stopAt: nat
      ensures run(lines, stopAt).0.Stopped? ==> run(lines, stopAt).1 == stopAt + 1
      ensures forall x :: x in Kept(run(lines, stopAt).0) ==> ChatLineOf(lines, x)
      ensures forall e :: e in run(lines, stopAt).0.events ==> e <= 99
    {
      var cfg := BackupConfig(large, fileSize, stopAt);
      if Pass(lines, cfg).Stopped? {
        PassStopsAtStopLine(lines, cfg);
      }
      PassKeepsChatLines(lines, cfg);
      PassEventsBelowDone(lines, cfg);
    }
  }

  /** A stopped attempt is the last one: its own stop poll used up the budget, so the outer
      loop's next poll reads the flag set. */
  lemma {:induction false} StoppedAttemptIsLast(run: Runner, runs: seq<seq<Line>>, budget: nat, k: nat, t: nat)
    requires StopEndsRun(run) && k <= |runs|
    decreases |runs| - k
    ensures forall i :: 0 <= i < |Attempts(run, runs, budget, k, t)| - 1 ==> !Attempts(run, runs, budget, k, t)[i].Stopped?
  {
    if k < |runs| && t < budget {
      var attempt := run(runs[k], budget - t - 1);
      var next: nat := t + 1 + attempt.1;
      var rest := Attempts(run, runs, budget, k + 1, next);
      StoppedAttemptIsLast(run, runs, budget, k + 1, next);
      if attempt.0.Stopped? {
        assert rest == [];
      }
      var rs := [attempt.0] + rest;
      assert Attempts(run, runs, budget, k, t) == rs;
      assert forall i :: 0 < i < |rs| ==> rs[i] == rest[i - 1];
    }
  }

  /** The best records are none exactly when no attempt kept a record. */
  lemma BestKeptEmptyIff(rs: seq<PassResult>)
    ensures BestKept(rs) == [] <==> forall j :: 0 <= j < |rs| ==> Kept(rs[j]) == []
  {
    var cs := Counts(rs);
    NoLeaderIffNonePositive(cs);
    match Leader(cs)
    case None =>
      forall j | 0 <= j < |rs|
        ensures Kept(rs[j]) == []
      {
        assert cs[j] == |Kept(rs[j])| as real <= 0.0;
      }
    case Some(i) =>
      assert cs[i] == |Kept(rs[i])| as real > 0.0;
  }

  /** Records, when there are any, come from the earliest attempt keeping the most records. */
  lemma BestKeptIsFirstMost(rs: seq<PassResult>, i: nat)
    requires Leader(Counts(rs)) == Some(i)
    ensures i < |rs| && BestKept(rs) == Kept(rs[i]) && Kept(rs[i]) != []
    ensures forall j :: 0 <= j < |rs| ==> |Kept(rs[j])| <= |Kept(rs[i])|
    ensures forall j :: 0 <= j < i ==> |Kept(rs[j])| < |Kept(rs[i])|
  {
    var cs := Counts(rs);
    LeaderIsMaximal(cs);
    LeaderIsEarliest(cs);
    assert cs[i] == |Kept(rs[i])| as real > 0.0;
    forall j | 0 <= j < |rs|
      ensures |Kept(rs[j])| <= |Kept(rs[i])|
    {
      assert cs[j] == |Kept(rs[j])| as real <= cs[i];
    }
    forall j | 0 <= j < i
      ensures |Kept(rs[j])| < |Kept(rs[i])|
    {
      assert cs[j] == |Kept(rs[j])| as real < cs[i];
    }
  }

  /** The search fails, with no records and the reports of its attempts, exactly when every
      attempt kept none. */
  lemma BackupFailsIffNoneKept(run: Runner, runs: seq<seq<Line>>, budget: nat)
    requires budget > 0
    ensures var rs := Attempts(run, runs, budget - 1, 0, 0);
      var o := BackupOutcome(run, runs, budget);
      && (o.error.Some? <==> forall j :: 0 <= j < |rs| ==> Kept(rs[j]) == [])
      && (o.error.Some? ==> o == Outcome([], Some(AllBackupsFailed), AllEvents(rs)))
  {
    var rs := Attempts(run, runs, budget - 1, 0, 0);
    BestKeptEmptyIff(rs);
    assert BackupOutcome(run, runs, budget).error.Some? <==> BestKept(rs) == [];
  }

  /** A successful search ends with the records of the earliest attempt keeping the most
      records, which are at least as many as any attempt kept. */
  lemma BackupPicksFirstMost(run: Runner, runs: seq<seq<Line>>, budget: nat)
    requires budget > 0
    ensures var rs := Attempts(run, runs, budget - 1, 0, 0);
      var o := BackupOutcome(run, runs, budget);
      o.error.None? ==>
        && Leader(Counts(rs)).Some?
        && var i := Leader(Counts(rs)).value;
        && i < |rs| && o.records == Kept(rs[i]) && o.records != []
        && (forall j :: 0 <= j < |rs| ==> |Kept(rs[j])| <= |o.records|)
        && (forall j :: 0 <= j < i ==> |Kept(rs[j])| < |o.records|)
  {
    var rs := Attempts(run, runs, budget - 1, 0, 0);
    if BackupOutcome(run, runs, budget).error.None? {
      var i := Leader(Counts(rs)).value;
      BestKeptIsFirstMost(rs, i);
    }
  }

  /** A stop during an attempt does not discard it: when the first attempt is stopped with
      records, those records are the result, without an error. */
  lemma StoppedAttemptCanWin(run: Runner, runs: seq<seq<Line>>, budget: nat)
    requires StopEndsRun(run) && budget > 0
    requires var rs := Attempts(run, runs, budget - 1, 0, 0);
      |rs| > 0 && rs[0].Stopped? && rs[0].records != []
    ensures var rs := Attempts(run, runs, budget - 1, 0, 0);
      BackupOutcome(run, runs, budget) == Outcome(rs[0].records, None, rs[0].events + [Done])
  {
    var rs := Attempts(run, runs, budget - 1, 0, 0);
    StoppedAttemptIsLast(run, runs, budget - 1, 0, 0);
    assert rs == [rs[0]];
    assert Counts(rs) == [|rs[0].records| as real];
    assert AllEvents(rs) == AllEvents([]) + rs[0].events;
  }

  lemma {:induction false} AttemptsKeepChatLines(run: Runner, runs: seq<seq<Line>>, budget: nat, k: nat, t: nat)
    requires KeepsChatLines(run) && k <= |runs|
    decreases |runs| - k
    ensures forall i, x :: 0 <= i < |Attempts(run, runs, budget, k, t)| && x in Kept(Attempts(run, runs, budget, k, t)[i]) ==>
      exists m :: k <= m < |runs| && ChatLineOf(runs[m], x)
  {
    if k < |runs| && t < budget {
      var attempt := run(runs[k], budget - t - 1);
      var rest := Attempts(run, runs, budget, k + 1, t + 1 + attempt.1);
      AttemptsKeepChatLines(run, runs, budget, k + 1, t + 1 + attempt.1);
      var rs := [attempt.0] + rest;
      assert Attempts(run, runs, budget, k, t) == rs;
      forall i, x | 0 <= i < |rs| && x in Kept(rs[i])
        ensures exists m :: k <= m < |runs| && ChatLineOf(runs[m], x)
      {
        if i == 0 {
          assert ChatLineOf(runs[k], x);
        } else {
          assert rs[i] == rest[i - 1];
          var m :| k + 1 <= m < |runs| && ChatLineOf(runs[m], x);
        }
      }
    }
  }

  lemma {:induction false} AllEventsPrepend(r: PassResult, rs: seq<PassResult>)
    ensures AllEvents([r] + rs) == r.events + AllEvents(rs)
    decreases |rs|
  {
    if rs == [] {
      assert [r] + rs == [r];
      assert AllEvents([r]) == AllEvents([]) + r.events;
    } else {
      var init := rs[..|rs| - 1];
      AllEventsPrepend(r, init);
      assert ([r] + rs)[..|[r] + rs| - 1] == [r] + init;
    }
  }

  lemma {:induction false} AttemptsReportBelowDone(run: Runner, runs: seq<seq<Line>>, budget: nat, k: nat, t: nat)
    requires ReportsBelowDone(run) && k <= |runs|
    decreases |runs| - k
    ensures forall e :: e in AllEvents(Attempts(run, runs, budget, k, t)) ==> e <= 99
  {
    if k < |runs| && t < budget {
      var attempt := run(runs[k], budget - t - 1);
      var rest := Attempts(run, runs, budget, k + 1, t + 1 + attempt.1);
      AttemptsReportBelowDone(run, runs, budget, k + 1, t + 1 + attempt.1);
      AllEventsPrepend(attempt.0, rest);
    }
  }

  // ---------------------------------------------------------------------------------------
  // Properties of process_log

  /** The records of a successful backup search are chat lines of one of the readings. */
  lemma BackupKeepsChatLines(run: Runner, runs: seq<seq<Line>>, budget: nat)
    requires KeepsChatLines(run)
    ensures forall x :: x in BackupOutcome(run, runs, budget).records ==>
      exists m :: 0 <= m < |runs| && ChatLineOf(runs[m], x)
  {
    if budget > 0 {
      var rs := Attempts(run, runs, budget - 1, 0, 0);
      AttemptsKeepChatLines(run, runs, budget - 1, 0, 0);
      BackupPicksFirstMost(run, runs, budget);
    }
  }

  lemma ExtractedChatLines(codecs: Codecs, file: LogFile, encoding: string, large: bool, stopAt: nat, ev0: seq<nat>)
    ensures forall x :: x in Extract(codecs, file, encoding, large, stopAt, ev0).records ==>
      exists e :: ChatLineOf(codecs.decodeLines(e, file.bytes), x)
  {
    var bytes := file.bytes;
    if file.freeSpace >= MinFreeSpace && codecs.hasCodec(encoding) {
      var lines := codecs.decodeLines(encoding, bytes);
      var cfg := PrimaryConfig(large, |bytes|, stopAt);
      var run := BackupRun(large, |bytes|);
      var runs := Decodings(codecs, bytes);
      var b := BackupOutcome(run, runs, Since(stopAt, PassPolls(lines, cfg)));
      var r := Pass(lines, cfg);
      PassKeepsChatLines(lines, cfg);
      BackupRunProperties(large, |bytes|);
      BackupKeepsChatLines(run, runs, Since(stopAt, PassPolls(lines, cfg)));
      forall x | x in Finish(r, ev0, b).records
        ensures exists e :: ChatLineOf(codecs.decodeLines(e, bytes), x)
      {
        if r.Diverted? {
          var m :| 0 <= m < |runs| && ChatLineOf(runs[m], x);
          assert runs[m] == codecs.decodeLines(BackupEncodings[m], bytes);
        } else {
          assert ChatLineOf(lines, x);
        }
      }
    }
  }

  /** Every record `process_log` returns is a chat line, stripped, of the file read under some
      encoding (the chosen one, or a backup one). */
  lemma RecordsAreChatLines(codecs: Codecs, file: LogFile, stopAfter: nat)
    ensures forall x :: x in Processing(codecs, file, stopAfter).records ==>
      exists e :: ChatLineOf(codecs.decodeLines(e, file.bytes), x)
  {
    if stopAfter > 0 {
      var bytes := file.bytes;
      var detected := Detection(codecs, bytes, stopAfter - 1);
      var p1 := 1 + detected.1;
      var p2 := p1 + CountPolls(|bytes|, Since(stopAfter, p1));
      var large := IsLarge(|bytes|, CountedLines(bytes, Since(stopAfter, p1)));
      ExtractedChatLines(codecs, file, detected.0, large, Since(stopAfter, p2), if large then [0] else []);
    }
  }

  /** The backup search fails with no records, or succeeds with some; its reports are at most
      99 except the final 100 of a success. */
  lemma BackupShape(run: Runner, runs: seq<seq<Line>>, budget: nat)
    requires ReportsBelowDone(run)
    ensures BackupOutcome(run, runs, budget).error.Some? ==>
      BackupOutcome(run, runs, budget).records == [] && forall e :: e in BackupOutcome(run, runs, budget).events ==> e <= 99
    ensures BackupOutcome(run, runs, budget).error.None? ==>
      BackupOutcome(run, runs, budget).records != [] && |BackupOutcome(run, runs, budget).events| > 0
      && BackupOutcome(run, runs, budget).events[|BackupOutcome(run, runs, budget).events| - 1] == Done
    ensures forall i :: 0 <= i < |BackupOutcome(run, runs, budget).events| - 1 ==> BackupOutcome(run, runs, budget).events[i] <= 99
  {
    if budget > 0 {
      var rs := Attempts(run, runs, budget - 1, 0, 0);
      AttemptsReportBelowDone(run, runs, budget - 1, 0, 0);
      var b := BackupOutcome(run, runs, budget);
      if b.error.None? {
        assert b.events == AllEvents(rs) + [Done];
        forall i | 0 <= i < |b.events| - 1
          ensures b.events[i] <= 99
        {
          assert b.events[i] == AllEvents(rs)[i];
          assert AllEvents(rs)[i] in AllEvents(rs);
        }
      } else {
        assert forall i :: 0 <= i < |b.events| ==> b.events[i] in AllEvents(rs);
      }
    }
  }

  /** Ending after the first pass keeps the reports made before it; an error comes with no
      records; reports are at most 99 except the final 100 of a result without an error. */
  lemma FinishShape(r: PassResult, ev0: seq<nat>, b: Outcome)
    requires forall e :: e in ev0 ==> e <= 99
    requires forall e :: e in r.events ==> e <= 99
    requires b.error.Some? ==> b.records == [] && forall e :: e in b.events ==> e <= 99
    requires b.error.None? ==> |b.events| > 0 && b.events[|b.events| - 1] == Done
    requires forall i :: 0 <= i < |b.events| - 1 ==> b.events[i] <= 99
    ensures |ev0| <= |Finish(r, ev0, b).events| && Finish(r, ev0, b).events[..|ev0|] == ev0
    ensures Finish(r, ev0, b).error.Some? ==> Finish(r, ev0, b).records == [] && forall e :: e in Finish(r, ev0, b).events ==> e <= 99
    ensures Finish(r, ev0, b).error.None? ==> |Finish(r, ev0, b).events| > 0 && Finish(r, ev0, b).events[|Finish(r, ev0, b).events| - 1] == Done
    ensures forall i :: 0 <= i < |Finish(r, ev0, b).events| - 1 ==> Finish(r, ev0, b).events[i] <= 99
  {
    var o := Finish(r, ev0, b);
    var head := ev0 + r.events;
    assert forall i :: 0 <= i < |head| ==> head[i] in ev0 || head[i] in r.events;
    if r.Diverted? {
      assert o.events == head + b.events;
      assert forall i :: |head| <= i < |o.events| ==> o.events[i] == b.events[i - |head|];
    } else if r.Completed? {
      assert o.events == head + [Done];
    }
    assert o.events[..|ev0|] == ev0;
  }

  /** `Extract` keeps the reports made before it; an error comes with no records; reports are
      at most 99 except the final 100 of a result without an error. */
  lemma ExtractShape(codecs: Codecs, file: LogFile, encoding: string, large: bool, stopAt: nat, ev0: seq<nat>)
    requires forall e :: e in ev0 ==> e <= 99
    ensures var o := Extract(codecs, file, encoding, large, stopAt, ev0);
      && |ev0| <= |o.events| && o.events[..|ev0|] == ev0
      && (o.error.Some? ==> o.records == [] && forall e :: e in o.events ==> e <= 99)
      && (o.error.None? ==> |o.events| > 0 && o.events[|o.events| - 1] == Done)
      && (forall i :: 0 <= i < |o.events| - 1 ==> o.events[i] <= 99)
  {
    var bytes := file.bytes;
    if file.freeSpace >= MinFreeSpace && codecs.hasCodec(encoding) {
      var lines := codecs.decodeLines(encoding, bytes);
      var cfg := PrimaryConfig(large, |bytes|, stopAt);
      var run := BackupRun(large, |bytes|);
      var backup := BackupOutcome(run, Decodings(codecs, bytes), Since(stopAt, PassPolls(lines, cfg)));
      PassEventsBelowDone(lines, cfg);
      BackupRunProperties(large, |bytes|);
      BackupShape(run, Decodings(codecs, bytes), Since(stopAt, PassPolls(lines, cfg)));
      FinishShape(Pass(lines, cfg), ev0, backup);
    } else {
      assert Extract(codecs, file, encoding, large, stopAt, ev0).events[..|ev0|] == ev0;
      assert forall i :: 0 <= i < |ev0| ==> ev0[i] in ev0;
    }
  }

  /** A stop seen in the first pass, before its garbled count passes 100 and before a progress
      checkpoint of a zero-size file, ends `process_log` with the stop error and none of the
      records read so far. */
  lemma StopInFirstPassGivesNothing(codecs: Codecs, file: LogFile, encoding: string, large: bool, stopAt: nat, ev0: seq<nat>)
    requires file.freeSpace >= MinFreeSpace && codecs.hasCodec(encoding)
    requires stopAt < |codecs.decodeLines(encoding, file.bytes)|
    requires Garbled(codecs.decodeLines(encoding, file.bytes), stopAt) <= PrimaryThreshold
    requires !(large && |file.bytes| == 0 && stopAt >= ProgressEvery)
    ensures Extract(codecs, file, encoding, large, stopAt, ev0).records == []
    ensures Extract(codecs, file, encoding, large, stopAt, ev0).error == Some(StopRequested)
  {
    StopLineStopsPass(codecs.decodeLines(encoding, file.bytes), PrimaryConfig(large, |file.bytes|, stopAt));
  }

  /** A stop on entry ends `process_log` at once. Otherwise an error comes with no records;
      progress starts at 0 for a file above 10 MiB; every report is at most 99 except the last
      of a result without an error, which is 100. */
  lemma OutcomeShape(codecs: Codecs, file: LogFile, stopAfter: nat)
    ensures stopAfter == 0 ==> Processing(codecs, file, stopAfter) == Outcome([], Some(StopRequested), [])
    ensures var o := Processing(codecs, file, stopAfter);
      && (o.error.Some? ==> o.records == [] && forall e :: e in o.events ==> e <= 99)
      && (o.error.None? ==> |o.events| > 0 && o.events[|o.events| - 1] == Done)
      && (forall i :: 0 <= i < |o.events| - 1 ==> o.events[i] <= 99)
      && (stopAfter > 0 && |file.bytes| > LargeSize ==> |o.events| > 0 && o.events[0] == 0)
  {
    if stopAfter > 0 {
      var bytes := file.bytes;
      var detected := Detection(codecs, bytes, stopAfter - 1);
      var p1 := 1 + detected.1;
      var p2 := p1 + CountPolls(|bytes|, Since(stopAfter, p1));
      var large := IsLarge(|bytes|, CountedLines(bytes, Since(stopAfter, p1)));
      var ev0: seq<nat> := if large then [0] else [];
      ExtractShape(codecs, file, detected.0, large, Since(stopAfter, p2), ev0);
      if large {
        var o := Extract(codecs, file, detected.0, large, Since(stopAfter, p2), ev0);
        assert o.events[0] == o.events[..1][0];
      }
    }
  }
}
