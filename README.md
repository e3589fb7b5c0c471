# Minecraft log extraction: a Dafny model of the extraction core

This project models the non-interface part of `Minecraft_log_extraction_system.py`. The
program pulls chat lines out of Minecraft server logs, which may be plain or gzip-compressed
and may use any text encoding. The model covers two classes of that file:

- `LogProcessor` handles one file. It picks an encoding from the byte-order mark. Failing
  that, it asks the detector, and when the detector is unsure it scores a fixed list of
  candidate encodings. It counts the file's lines in 1 MiB chunks and classifies the file as
  large or not. Then it reads the file line by line and keeps each line in which a server log
  prefix is followed by `<` or `[`. After more than 100 lines with U+FFFD it gives up and
  retries under every candidate encoding, keeping the attempt with the most records.
- `ChatExtractorApp` runs the batch. `process_files` tags every path as an archive to unpack
  or a log to process and queues it. `worker` takes tasks from the head of the queue:
  - an archive is unpacked into a temporary directory and its file is queued for processing;
  - a log's outcome is filed under its path and, under its tree id, the archive it came from.

  After the batch, `validate_content` reprocesses garbled results, and
  `deduplicate_records` removes repeated records under each tree id.

How the model is built:

- **Modules.** Each part of the program is a module:
  - `Text`: Python's `strip`, `in`, `split` and `lower`.
  - `ArgMax`: the strict-greater scan shared by both encoding searches.
  - `ChatLine`: the chat-line classifier.
  - `Extraction`: one streaming pass over decoded lines.
  - `Encoding`: `detect_encoding` and `select_best_encoding`.
  - `Processor`: `count_lines`, `try_backup_encodings` and `process_log`.
  - `PostPass`: order-preserving duplicate removal.
  - `Pipeline`: the queue, the worker and the post-pass, as class `ChatExtractor`.
- **The stop flag inside `process_log`.** Another thread sets this flag, and it is never
  cleared while a file is processed. So one call is described by `stopAfter`, the number of
  stop polls that read the flag clear. The polls are counted in program order across:
  - the entry check;
  - the candidate scoring;
  - the chunks of the line count;
  - the lines of the first pass;
  - each backup attempt and its lines.

  Every loop receives how many of its own polls read the flag clear.
- **The worker and the interface.** They are one sequence of steps, and `StopProcessing` runs
  between worker steps. A stop during a file is that file's stop budget. When the file then
  ends with the stop error, `StopProcessing` runs right after it is filed, so the worker files
  that one result and ends.
- **Outside services.** The detector, decoding, `str.isprintable`, the files, free disk space
  and decompression are not reimplemented. They are fields of the `Codecs` and `Disk` values,
  so every property holds whatever those services answer.
- **Dictionaries.** The dictionaries the post-pass iterates are maps. Each is paired with the
  order in which its keys were first inserted, because Python dictionaries iterate in that
  order.
- **Each method and its specification.** Each method with a loop or with state is proved
  against a function that states the same behaviour:
  - `RunPass` against `Pass`;
  - `Search` against `Attempts`/`BestKept`;
  - `ProcessLog` against `Processing`;
  - `DedupRecords` against `Dedup`;
  - `ValidateContent` and `DeduplicateRecords` against `RewrittenIds`/`RewrittenPaths`.

  The lemmas then state what those functions promise.

Where the code and the written design differ, the model follows the code:

- The design describes candidate scoring as replacing invalid bytes. The code decodes the
  sample with `errors='ignore'`, so invalid bytes are dropped; `Codecs.decodeIgnoring` stands
  for that.
- The design treats the UTF-32 little-endian byte-order mark as detectable. In the code it is
  never reported, because the UTF-16 little-endian mark is a prefix of it and is checked first
  (`Encoding.Utf32LeNeverDetected`).
- The design says a stop makes every in-flight operation return a stopped result, never
  partial records treated as success. In `try_backup_encodings`, though, a stop seen inside
  an attempt only breaks out of that attempt's line loop. The records read so far still
  compete for the best result and can be returned without an error
  (`Processor.StoppedAttemptCanWin`).
- The design says a stopped extraction is not an error. In the code, `process_log` returns the
  stop message in its error slot, and the worker files that result as failed. The model
  reports it as the error `StopRequested`.

## Model

| member | source | states |
|---|---|---|
| Text.StripKeepsMiddle | Minecraft_log_extraction_system.py:257 | `strip()` returns a contiguous middle part of the line and removes only whitespace at the two ends |
| Text.StripEnds | Minecraft_log_extraction_system.py:257 | a non-empty stripped text neither starts nor ends with whitespace |
| Text.StripUnchanged | Minecraft_log_extraction_system.py:260 | a line that has no whitespace at either end is kept as it is by `strip()` |
| Text.FindIsFirst | Minecraft_log_extraction_system.py:254-257 | the search finds an occurrence exactly when `prefix in line` holds, and it finds the first occurrence, where `split(prefix, 1)` cuts |
| Text.LowerAscii | Minecraft_log_extraction_system.py:146 | ASCII capitals become lower case; every other character is unchanged |
| ArgMax.Leader | Minecraft_log_extraction_system.py:185-187 | a candidate that wins the strict `score > best_score` scan from 0 is in range and scores above 0 |
| ArgMax.LeaderIsMaximal | Minecraft_log_extraction_system.py:185-187 | the winner's score is at least that of every candidate, and the best score is never negative |
| ArgMax.LeaderIsEarliest | Minecraft_log_extraction_system.py:185-187 | every candidate before the winner scores strictly less, so ties keep the first |
| ArgMax.NoLeaderIffNonePositive | Minecraft_log_extraction_system.py:163-187 | nobody wins exactly when no candidate scores above 0 |
| ArgMax.LeaderSnoc | Minecraft_log_extraction_system.py:185-187 | one more candidate wins exactly when it beats the current winner, or beats 0 when there is none |
| ArgMax.ScanStep | Minecraft_log_extraction_system.py:185-187 | one more candidate replaces the best score and the winner exactly when it exceeds the best score |
| ChatLine.MatchingPrefix | Minecraft_log_extraction_system.py:253-261 | the prefix chosen for a line is one of the listed prefixes and occurs in the line |
| ChatLine.MatchingPrefixIsFirst | Minecraft_log_extraction_system.py:253-261 | no earlier prefix of the list occurs in the line, and none occurs when no prefix is chosen (`break` after the first match) |
| ChatLine.RecordOf | Minecraft_log_extraction_system.py:253-261 | a line contributes exactly its stripped text, and only when it is a chat line; never more than one record |
| ChatLine.DecidingOccurrenceIsFound | Minecraft_log_extraction_system.py:254-257 | when the first occurrence of the first matching prefix is at `k`, that prefix is the one chosen and the content is the text after that occurrence |
| ChatLine.ChatLineIff | Minecraft_log_extraction_system.py:253-261 | a line is a chat line iff the first listed prefix occurring in it, cut at its first occurrence, is followed by text whose stripped form starts with `<` or `[` |
| ChatLine.TimestampedLine | Minecraft_log_extraction_system.py:82-85 | a timestamped server-thread line matches the first prefix, and the content is the text after it |
| ChatLine.ExampleChatMessage | Minecraft_log_extraction_system.py:253-261 | a player message `<Alice> hello` after the server prefix is kept, stripped |
| ChatLine.ExampleServerMessage | Minecraft_log_extraction_system.py:253-261 | a server message after the prefix that does not open with `<` or `[` is not kept |
| Encoding.BomFrom | Minecraft_log_extraction_system.py:119-134 | the reported encoding belongs to a mark that the 4-byte header starts with; when none is reported, the header starts with no mark |
| Encoding.Utf32LeNeverDetected | Minecraft_log_extraction_system.py:119-134 | no header is ever reported as UTF-32 little-endian |
| Encoding.BomExamples | Minecraft_log_extraction_system.py:119-134 | headers with the UTF-8, UTF-16 and UTF-32 big-endian marks are reported as such; `FF FE 00 00` is reported as UTF-16 little-endian |
| Encoding.Normalized | Minecraft_log_extraction_system.py:141-146 | the detector's answer, after falling back to `utf-8` and mapping ASCII to UTF-8, is a non-empty name |
| Encoding.PrintableCount | Minecraft_log_extraction_system.py:175-176 | the printable count is at most the length of the decoded sample |
| Encoding.ScoreRange | Minecraft_log_extraction_system.py:172-183 | a score lies in [0, 1.3]; above 1 only when a log prefix occurs in the decoded sample; 0 for an empty decoding |
| Encoding.SelectionIsFirstBest | Minecraft_log_extraction_system.py:162-199 | the selection is `utf-8` when no candidate scored before the stop scores above 0; otherwise it is the earliest candidate with the highest positive score among those scored |
| Encoding.SelectBestEncoding | Minecraft_log_extraction_system.py:162-199 | the loop returns `Selection`, and it polls the stop flag once per candidate up to and including the poll that reads it set |
| Encoding.ScanCandidates | Minecraft_log_extraction_system.py:166-187 | the loop's choice is the winner of the strict-maximum scan over the candidates scored before the stop, or `utf-8` when there is none |
| Encoding.Detection | Minecraft_log_extraction_system.py:117-160 | detection spends at most one stop poll per candidate |
| Encoding.DetectEncoding | Minecraft_log_extraction_system.py:117-160 | the method returns the encoding and poll count of `Detection`: a byte-order mark first, then the detector, then the scored candidates |
| Encoding.ConfidentGuessNormalised | Minecraft_log_extraction_system.py:138-160 | with no byte-order mark and confidence at least 0.8, the result is the detector's answer, except that a missing answer or ASCII in any case becomes `utf-8`; no stop poll is spent |
| Encoding.DetectionIsCandidateWhenUnsure | Minecraft_log_extraction_system.py:155-156 | with confidence below 0.8 and no byte-order mark, the result is one of the backup encodings |
| Extraction.Percent | Minecraft_log_extraction_system.py:242-243 | progress is at most 99, is 99 once the processed size reaches the file size, and never exceeds the processed share |
| Extraction.FirstExit | Minecraft_log_extraction_system.py:235-270 | the line at which a pass leaves its loop early is a line of the file on which a stop, a zero-size progress division or the threshold-crossing garbled line happens |
| Extraction.FirstExitIsFirst | Minecraft_log_extraction_system.py:235-270 | no earlier line is such an exit line, and when there is none no line is |
| Extraction.RunPass | Minecraft_log_extraction_system.py:235-270 | the streaming loop returns `Pass` and makes `PassPolls` stop polls |
| Extraction.RecordsAppend | Minecraft_log_extraction_system.py:253-261 | records of consecutive runs of lines concatenate, so records keep the order of the lines |
| Extraction.RecordsFromLines | Minecraft_log_extraction_system.py:253-261 | a value is a record exactly when some line read yields it |
| Extraction.GarbledMonotone | Minecraft_log_extraction_system.py:265-267 | the U+FFFD line count never decreases as lines are read |
| Extraction.CrossingLine | Minecraft_log_extraction_system.py:265-270 | when more than `t` lines are garbled, one garbled line brings the count from `t` to `t + 1` |
| Extraction.CountWithinThreshold | Minecraft_log_extraction_system.py:265-270 | before the first exit, at most `threshold` lines are garbled |
| Extraction.PassCompletesIff | Minecraft_log_extraction_system.py:235-275 | a pass reads every line exactly when the flag stays clear, no zero-size progress division happens, and at most `threshold` lines are garbled; it then yields the records of all lines |
| Extraction.PassStopsAtStopLine | Minecraft_log_extraction_system.py:236-237 | a stopped pass stops at line `stopAt` after `stopAt + 1` polls, with the records of the lines before, and within the garbled threshold |
| Extraction.PassDivertsOnCrossing | Minecraft_log_extraction_system.py:265-270 | a pass that gives up does so on the garbled line that brings the count to `threshold + 1`, before the stop flag is seen, and polls for no line after it |
| Extraction.CrossingLineDivertsPass | Minecraft_log_extraction_system.py:265-270 | conversely, a garbled line bringing the count to `threshold + 1` before the stop line, with no zero-size progress division up to it, makes the pass give up there |
| Extraction.EventsShape | Minecraft_log_extraction_system.py:241-246 | one progress report per 1000 lines of a large file and none otherwise, each at most 99 |
| Extraction.PassEventsBelowDone | Minecraft_log_extraction_system.py:241-246 | however a pass ends, its progress reports are at most 99 |
| Extraction.PassRecordsFromLines | Minecraft_log_extraction_system.py:253-261 | every record a finished or stopped pass returns is a record of one of its lines |
| Extraction.StopLineStopsPass | Minecraft_log_extraction_system.py:236-237 | a pass that reaches the stop line within the garbled threshold, with no zero-size progress division before it, stops there with the records before it |
| Processor.NewlinesAppend | Minecraft_log_extraction_system.py:107-111 | newline counts of consecutive chunks add up |
| Processor.ChunkCountFacts | Minecraft_log_extraction_system.py:103-111 | a file has more than `c` chunks exactly when `c` chunks do not reach its end, and all its chunks cover it |
| Processor.CountLines | Minecraft_log_extraction_system.py:98-115 | the chunked count returns `CountedLines` after `CountPolls` polls |
| Processor.CountedLinesBound | Minecraft_log_extraction_system.py:98-115 | the count never exceeds the file's newlines, and equals them when no stop cuts it before the last chunk |
| Processor.Attempts | Minecraft_log_extraction_system.py:305-359 | the backup search makes at most one attempt per candidate encoding |
| Processor.AttemptMade | Minecraft_log_extraction_system.py:305-350 | an attempt consists of one poll that reads the flag clear followed by a pass, and is recorded in encoding order |
| Processor.SearchEnded | Minecraft_log_extraction_system.py:305-307 | once the encodings run out or a poll reads the flag set, no further attempt is made |
| Processor.AttemptRecorded | Minecraft_log_extraction_system.py:353-356 | an attempt's reports follow the earlier ones; its records become the best exactly when there are strictly more of them |
| Processor.Attempt | Minecraft_log_extraction_system.py:316-350 | one attempt returns the backup pass over the file read under encoding `k` |
| Processor.TryEncoding | Minecraft_log_extraction_system.py:305-359 | one turn of the backup loop extends the recorded attempts by one, in encoding order |
| Processor.Search | Minecraft_log_extraction_system.py:305-359 | the loop returns the best records and all progress reports of the attempts `Attempts` describes |
| Processor.TryBackup | Minecraft_log_extraction_system.py:293-372 | `try_backup_encodings` returns `BackupOutcome` |
| Processor.ExtractRecords | Minecraft_log_extraction_system.py:220-291 | from the free-space check on, `process_log` returns `Extract`, which fails with no records when `open` does not know the encoding (lines 234, 285-288) |
| Processor.ProcessLog | Minecraft_log_extraction_system.py:201-291 | `process_log` returns `Processing` for the file and its stop budget |
| Processor.PassKeepsChatLines | Minecraft_log_extraction_system.py:253-261 | whatever a pass keeps are chat lines of the lines it read, stripped |
| Processor.BackupRunProperties | Minecraft_log_extraction_system.py:318-350 | a backup attempt stops on its last poll, keeps only chat lines, and reports at most 99 |
| Processor.StoppedAttemptIsLast | Minecraft_log_extraction_system.py:305-321 | only the last attempt can be one that was stopped |
| Processor.BackupFailsIffNoneKept | Minecraft_log_extraction_system.py:353-372 | the search fails, with no records and the reports of all its attempts, exactly when no attempt kept a record |
| Processor.BackupPicksFirstMost | Minecraft_log_extraction_system.py:353-372 | a successful search returns the records of the earliest attempt with the most records, non-empty and at least as many as any attempt kept |
| Processor.BestKeptEmptyIff | Minecraft_log_extraction_system.py:353-367 | the best kept records are empty exactly when every attempt kept none |
| Processor.BestKeptIsFirstMost | Minecraft_log_extraction_system.py:353-367 | the leader of the kept counts is the earliest attempt keeping the most records |
| Processor.StoppedAttemptCanWin | Minecraft_log_extraction_system.py:320-321 | a first attempt that is stopped with records yields those records without an error, followed by a final report of 100 |
| Processor.AttemptsKeepChatLines | Minecraft_log_extraction_system.py:345-356 | every record an attempt keeps is a chat line of the file read under one of the encodings |
| Processor.AttemptsReportBelowDone | Minecraft_log_extraction_system.py:325-329 | all progress reports of the attempts are at most 99 |
| Processor.BackupKeepsChatLines | Minecraft_log_extraction_system.py:361-365 | every record the backup search returns is a chat line of the file read under one of the encodings |
| Processor.ExtractedChatLines | Minecraft_log_extraction_system.py:220-291 | every record `Extract` returns is a chat line of the file read under some encoding |
| Processor.RecordsAreChatLines | Minecraft_log_extraction_system.py:201-291 | every record `process_log` returns is a chat line of the file read under some encoding |
| Processor.BackupShape | Minecraft_log_extraction_system.py:361-372 | a failed search has no records and reports at most 99; a successful one has records and ends with a report of 100 |
| Processor.FinishShape | Minecraft_log_extraction_system.py:266-291 | the end of `process_log` keeps the earlier reports; an error comes with no records; only the last report of a success is 100 |
| Processor.ExtractShape | Minecraft_log_extraction_system.py:220-291 | the same for everything from the free-space check on |
| Processor.StopInFirstPassGivesNothing | Minecraft_log_extraction_system.py:236-237 | a stop seen during the first pass ends `process_log` with the stop error and none of the records read so far |
| Processor.OutcomeShape | Minecraft_log_extraction_system.py:201-291 | a stop on entry returns nothing at once; an error comes with no records; a file above 10 MiB first reports 0; every report is at most 99 except the final 100 of a success |
| PostPass.DedupRecords | Minecraft_log_extraction_system.py:1298-1304 | the `seen`-set loop returns `Dedup` of the records |
| PostPass.DedupSameElements | Minecraft_log_extraction_system.py:1298-1304 | deduplication loses no record and adds none |
| PostPass.DedupNoRepeats | Minecraft_log_extraction_system.py:1298-1304 | no record is left twice |
| PostPass.DedupKeepsFirstOccurrences | Minecraft_log_extraction_system.py:1298-1304 | the result is the subsequence of the input at increasing positions, which are exactly the first occurrences |
| PostPass.DedupOfNoRepeats | Minecraft_log_extraction_system.py:1298-1304 | records without repeats are left as they are |
| PostPass.DedupIdempotent | Minecraft_log_extraction_system.py:1298-1304 | deduplicating twice is deduplicating once |
| PostPass.NoRepeatsCount | Minecraft_log_extraction_system.py:1298-1304 | a list without repeats has as many distinct records as it is long |
| PostPass.DedupRemovedCount | Minecraft_log_extraction_system.py:1306-1308 | the number removed is the length less the number of distinct records, and never negative |
| Pipeline.Tag | Minecraft_log_extraction_system.py:951-960 | a path is queued either for unpacking or for processing with no source archive |
| Pipeline.TagIff | Minecraft_log_extraction_system.py:951 | a path is queued for unpacking exactly when it ends in `.gz` in any letter case; otherwise it is queued for processing as it is |
| Pipeline.BasenameIsLastPart | Minecraft_log_extraction_system.py:1094 | the base name is a suffix of the path without `/`, and it is the whole path or follows a `/` |
| Pipeline.ExtractedNameDropsGz | Minecraft_log_extraction_system.py:1094-1098 | unpacking drops exactly a trailing `.gz`, so `x.log.gz` gives `x.log`; other names are unchanged |
| Pipeline.JoinRelative | Minecraft_log_extraction_system.py:1099 | joining a name without `/` puts it after the directory and one separator |
| Pipeline.ExtractTargetName | Minecraft_log_extraction_system.py:1090-1099 | the unpacked file is named after the archive without its `.gz` |
| Pipeline.TreeId | Minecraft_log_extraction_system.py:1199 | records are filed under the source archive when it is a non-empty name, else under the path |
| Pipeline.PathOfFinds | Minecraft_log_extraction_system.py:1229-1233 | a path is found for a tree id exactly when some path is filed under it, and it is filed under that tree id |
| Pipeline.PathOfIsFirst | Minecraft_log_extraction_system.py:1229-1233 | the path found is the first one, in filing order, under that tree id |
| Pipeline.Reprocessing | Minecraft_log_extraction_system.py:1221-1267 | records are replaced only for a garbled tree id with a found non-empty path, only by an error-free result of reprocessing that path and only when that result has no U+FFFD; when no replacement happens for such an id, reprocessing failed or still left U+FFFD |
| Pipeline.IdsAfterStep | Minecraft_log_extraction_system.py:1217-1267 | visiting one more tree id changes at most that tree id's records |
| Pipeline.PathsAfterStep | Minecraft_log_extraction_system.py:1217-1267 | visiting one more tree id changes at most the records of the path found for it |
| Pipeline.IdsAfterVisits | Minecraft_log_extraction_system.py:1217-1267 | after the visits, each visited tree id has its rewritten records and every other tree id keeps its own |
| Pipeline.IdsAfterAll | Minecraft_log_extraction_system.py:1217-1267 | visiting every tree id gives `RewrittenIds` |
| Pipeline.PathsAfterVisits | Minecraft_log_extraction_system.py:1217-1267 | after the visits, only the first path of each visited tree id is rewritten |
| Pipeline.PathsAfterAll | Minecraft_log_extraction_system.py:1217-1267 | visiting every tree id gives `RewrittenPaths` |
| Pipeline.FilingOutcome | Minecraft_log_extraction_system.py:1187-1201 | filing an outcome keeps the dictionaries and their key orders in agreement |
| Pipeline.FilingRewrite | Minecraft_log_extraction_system.py:1266-1267 | rewriting records under existing keys keeps the dictionaries in agreement |
| Pipeline.ChatExtractor.constructor | Minecraft_log_extraction_system.py:388-404 | the application starts with an empty queue, empty result dictionaries, the flag clear and no temporary directory |
| Pipeline.ChatExtractor.ProcessFiles | Minecraft_log_extraction_system.py:898-960 | the flag and counters are reset, and every file is appended to the queue, tagged, in order |
| Pipeline.ChatExtractor.StopProcessing | Minecraft_log_extraction_system.py:970-981 | the flag is set and the queue is emptied; the dictionaries stay in agreement |
| Pipeline.ChatExtractor.ExtractGzFile | Minecraft_log_extraction_system.py:1074-1111 | the method returns `Unpack`; the temporary directory is created on the first unpacking that passes the space check, and is kept afterwards |
| Pipeline.ChatExtractor.RunExtractTask | Minecraft_log_extraction_system.py:1124-1151 | a successful unpacking appends `("process", extracted, archive)` at the tail of the queue; a failed one queues nothing; the temporary directory is created unless the free-space check fails first |
| Pipeline.ChatExtractor.RunProcessTask | Minecraft_log_extraction_system.py:1153-1203 | the returned outcome is the file's `process_log` result; it is filed under its path and its records under its tree id; a new tree id and a new path are appended to the insertion orders; the counters go up by one |
| Pipeline.ChatExtractor.FileOutcome | Minecraft_log_extraction_system.py:1187-1203 | the four dictionaries are updated with the outcome, a new tree id and a new path are appended to the insertion orders, and the dictionaries stay in agreement |
| Pipeline.ChatExtractor.FileById | Minecraft_log_extraction_system.py:1199-1200 | the records are filed under the tree id; a new tree id goes to the end of the key order |
| Pipeline.ChatExtractor.FileByPath | Minecraft_log_extraction_system.py:1187-1199 | the outcome, records and tree id are filed under the path; a new path goes to the end of the key order |
| Pipeline.ChatExtractor.RunWorker | Minecraft_log_extraction_system.py:1113-1210 | with the flag set at entry nothing changes; otherwise the worker ends with the queue empty, and the flag ends set exactly when the last file it processed ended with the stop error, so no file is processed after it; every processed file is filed, the file counter grows by their number, and filed keys are never lost |
| Pipeline.ChatExtractor.WorkerStep | Minecraft_log_extraction_system.py:1116-1203 | one task is taken from the head of the queue and handled, lowering the queue's weight; a processed file is filed, and the stop is reported exactly when its result carries the stop error |
| Pipeline.ChatExtractor.FindPath | Minecraft_log_extraction_system.py:1229-1233 | the loop finds `PathOf`, the first path filed under the tree id |
| Pipeline.ChatExtractor.ValidateContent | Minecraft_log_extraction_system.py:1212-1280 | with the flag set nothing changes and 0 is returned; otherwise the records become `RewrittenIds`/`RewrittenPaths` under revalidation, and the number of tree ids replaced is returned |
| Pipeline.ChatExtractor.ValidateEach | Minecraft_log_extraction_system.py:1217-1277 | the loop over the tree ids gives `IdsAfter`/`PathsAfter` and counts the replacements |
| Pipeline.ChatExtractor.ValidateOne | Minecraft_log_extraction_system.py:1221-1277 | one tree id is replaced, together with its found path, exactly when `Reprocessing` succeeds |
| Pipeline.ChatExtractor.DeduplicateRecords | Minecraft_log_extraction_system.py:1282-1318 | with the flag set nothing changes and 0 is returned; otherwise each tree id and its first path hold the deduplicated records, and the number removed is returned |
| Pipeline.ChatExtractor.DedupEach | Minecraft_log_extraction_system.py:1290-1316 | the loop over the tree ids gives `IdsAfter`/`PathsAfter` and sums the removals |
| Pipeline.ChatExtractor.DedupOne | Minecraft_log_extraction_system.py:1294-1316 | a tree id and its first path get `Dedup` of its records, and the number removed is the difference in length |
| Pipeline.ExtractShrinksQueue | Minecraft_log_extraction_system.py:1124-1151 | handling an extract task lowers the queue's weight, whether or not it queues a process task |
| Pipeline.ProcessShrinksQueue | Minecraft_log_extraction_system.py:1153-1203 | handling a process task lowers the queue's weight, so the worker ends |

## Left out

- The Tk interface is not modelled: the tree view, status texts, progress bars, time estimates,
  message boxes, and export and merge of results. Progress callbacks are modelled as the
  list of percentages they receive.
- Threads are not modelled: the worker and the interface run as one sequence of steps.
  A stop set during one `process_log` call is its `stopAfter` budget, and a stop set during
  the post-pass is modelled as seen at its entry.
- The worker's `task_queue.get(timeout=1)` is modelled as ending when the queue is empty. The
  `None` sentinel is never queued by the modelled code.
- The worker's `except Exception` handler is left out. So are the `OSError`s of `open`,
  `getsize`, `disk_usage`, `mkdtemp` and `makedirs`, except those that the model names:
  - `UnpackFailed`;
  - `ProcessingFailed` for the zero-size progress division;
  - `ProcessingFailed` for the `LookupError` of `open` on an encoding name Python does not
    know, given by `Codecs.hasCodec`. The backup list holds only codecs Python ships, so
    the backup attempts at line 317 are not gated by it.
- `Extraction.Percent` computes `min(99, processed * 100 / size)` in integers. The source
  computes the division in floating point before truncating, so the two can differ by one
  where rounding bites.
- Line sizes are taken as given with each decoded line. The 100-byte default for a line that
  cannot be re-encoded is left to `Codecs.decodeLines`.
- `count_lines` is modelled with full 1 MiB reads. A short read from the raw stream before the
  end of the file is not modelled, and neither is its `except` returning 0.
- `Text.LowerAscii` only lower-cases ASCII letters, which is all the comparisons with `ascii`
  and `.gz` need. Full Unicode case mapping is not modelled.
- `Basename` and `Join` follow POSIX paths only.
- The `copy_to_temp_dir` step and the size or name ordering of `process_files` are not
  modelled. `ProcessFiles` takes the files in the order chosen for them.
- `process_results`, `clear_results`, `update_progress`, `update_tree_after_deduplicate`,
  exporting and merging are not part of this model.
- In `validate_content`, the failure mark written into the tree view is not modelled. The
  file is reprocessed with the same `Codecs`/`Disk` and with the stop budget `schedule` gives
  its path.
- Pipeline.ChatExtractor.RunWorker states that the queue is drained, that the dictionaries
  stay in agreement and that no filed key is lost. It ends after a file only when that file
  returns the stop error. A stop that falls in a backup attempt whose partial records win is
  returned without an error, so the worker goes on after that file, though in the source the
  flag is set by then and the worker leaves its loop. It does not restate the records of each
  task, which `RunExtractTask` and `RunProcessTask` state for one task at a time.
- Pipeline.ChatExtractor.ValidateContent and Pipeline.ChatExtractor.DeduplicateRecords check
  the stop flag once at entry. The flag cannot change during the pass in this sequential
  model, so the in-loop check at lines 1218-1219 and 1291-1292 is the same check.
