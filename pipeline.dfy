/** The file pipeline of `ChatExtractorApp`: `process_files` tags each file as an archive to
    unpack or a log to process and queues it, `worker` runs the queue, and the post-pass
    (`validate_content`, `deduplicate_records`) rewrites the records filed under each tree id.

    The worker thread and the interface thread are modelled as one sequence of steps: the
    interface's `stop_processing` runs between worker steps. A stop that lands inside one
    `process_log` call is that call's `stopAfter` budget (see `Processor`). */
module Pipeline {
  import opened Common
  import opened Text
  import opened Extraction
  import opened Encoding
  import opened Processor
  import opened PostPass

  /** A queued task: `("extract", path)` or `("process", path, source_archive)`. */
  datatype Task = ExtractTask(archive: string) | ProcessTask(path: string, source: Option<string>)

  // ---------------------------------------------------------------------------------------
  // Task tagging (process_files)

  /** `path.lower().endswith(('.gz', '.log.gz'))`; a name ending in `.log.gz` ends in `.gz`,
      so the second suffix adds nothing. */
  predicate IsArchiveName(path: string) {
    |path| >= 3 && LowerEquals(path[|path| - 3..], ".gz")
  }

  /** The task `process_files` queues for `path` (lines 951-960). */
  function Tag(path: string): (t: Task)
    ensures t == ExtractTask(path) || t == ProcessTask(path, None)
  {
    if IsArchiveName(path) then ExtractTask(path) else ProcessTask(path, None)
  }

  function Tags(paths: seq<string>): (ts: seq<Task>)
    ensures |ts| == |paths|
  {
    seq(|paths|, i requires 0 <= i < |paths| => Tag(paths[i]))
  }

  /** A path is queued for unpacking exactly when it ends in a dot, a `g` and a `z`, each
      letter in either case; everything else is queued for processing as it is. */
  lemma TagIff(path: string)
    ensures Tag(path).ExtractTask? <==>
      |path| >= 3 && path[|path| - 3] == '.' && path[|path| - 2] in "gG" && path[|path| - 1] in "zZ"
    ensures Tag(path).ProcessTask? ==> Tag(path) == ProcessTask(path, None)
  {
    if |path| >= 3 {
      var s := path[|path| - 3..];
      assert s[0] == path[|path| - 3] && s[1] == path[|path| - 2] && s[2] == path[|path| - 1];
    }
  }

  // ---------------------------------------------------------------------------------------
  // extract_gz_file

  /** `os.path.basename`: the part of `path` after its last `/`. */
  function Basename(path: string): string {
    if path == [] || path[|path| - 1] == '/' then []
    else Basename(path[..|path| - 1]) + [path[|path| - 1]]
  }

  /** The base name is the longest suffix of the path without a '/': it is the whole path, or
      a '/' comes right before it. */
  lemma {:induction false} BasenameIsLastPart(path: string)
    ensures |Basename(path)| <= |path| && Basename(path) == path[|path| - |Basename(path)|..]
    ensures '/' !in Basename(path)
    ensures |Basename(path)| < |path| ==> path[|path| - |Basename(path)| - 1] == '/'
  {
    if path != [] && path[|path| - 1] != '/' {
      var init := path[..|path| - 1];
      BasenameIsLastPart(init);
      var b := Basename(init);
      var k := |init| - |b|;
      assert init[k..] == path[k..|init|];
      assert path[k..] == path[k..|init|] + [path[|init|]];
    }
  }

  /** `os.path.join(dir, name)`. */
  function Join(dir: string, name: string): string {
    if StartsWith(name, "/") then name
    else if dir == [] || dir[|dir| - 1] == '/' then dir + name
    else dir + "/" + name
  }

  /** The name of the file an archive named `name` unpacks to (lines 1094-1098). */
  function ExtractedName(name: string): string {
    if EndsWith(name, ".log.gz") then name[..|name| - 7] + ".log"
    else if EndsWith(name, ".gz") then name[..|name| - 3]
    else name
  }

  /** Unpacking removes exactly a trailing `.gz` (matched case-sensitively), so `x.log.gz`
      gives `x.log`, and leaves any other name as it is. */
  lemma ExtractedNameDropsGz(name: string)
    ensures EndsWith(name, ".gz") ==> ExtractedName(name) + ".gz" == name
    ensures !EndsWith(name, ".gz") ==> ExtractedName(name) == name
    ensures EndsWith(name, ".log.gz") ==> EndsWith(ExtractedName(name), ".log")
    ensures '/' !in name ==> '/' !in ExtractedName(name)
  {
    if EndsWith(name, ".log.gz") {
      var n := |name|;
      assert name[n - 7..][4..] == ".gz";
      assert name[n - 3..] == ".gz";
      assert name[..n - 7] + ".log" == name[..n - 3];
      assert name[..n - 3] + ".gz" == name;
    } else if EndsWith(name, ".gz") {
      assert name[..|name| - 3] + ".gz" == name;
    }
  }

  /** Where `extract_gz_file` writes the unpacked `archive`, given the temporary directory
      (lines 1090-1099). */
  function ExtractTarget(temp: string, archive: string): string {
    Join(Join(temp, Basename(archive) + "_extracted"), ExtractedName(Basename(archive)))
  }

  lemma {:induction false} BasenameAfterSlash(dir: string, name: string)
    requires dir == [] || dir[|dir| - 1] == '/'
    requires '/' !in name
    ensures Basename(dir + name) == name
    decreases |name|
  {
    if name == [] {
      assert dir + name == dir;
    } else {
      var init := name[..|name| - 1];
      var c := name[|name| - 1];
      BasenameAfterSlash(dir, init);
      assert c in name;
      var s := dir + name;
      assert s[..|s| - 1] == dir + init;
      assert s[|s| - 1] == c && c != '/';
      assert Basename(s) == Basename(dir + init) + [c];
      assert name == init + [c];
    }
  }

  /** Joining a name without '/' puts it after the directory and a separator. */
  lemma JoinRelative(dir: string, name: string)
    requires '/' !in name
    ensures Join(dir, name) == (if dir == [] || dir[|dir| - 1] == '/' then dir else dir + "/") + name
  {
    if name != [] {
      assert name[..1][0] == name[0] && name[0] in name;
    }
  }

  /** The unpacked file is named after the archive: the archive's own name without `.gz`. */
  lemma ExtractTargetName(temp: string, archive: string)
    ensures Basename(ExtractTarget(temp, archive)) == ExtractedName(Basename(archive))
  {
    var name := ExtractedName(Basename(archive));
    BasenameIsLastPart(archive);
    ExtractedNameDropsGz(Basename(archive));
    var dir := Join(temp, Basename(archive) + "_extracted");
    JoinRelative(dir, name);
    var prefix := if dir == [] || dir[|dir| - 1] == '/' then dir else dir + "/";
    BasenameAfterSlash(prefix, name);
  }

  datatype UnpackError = LowDiskSpace(free: nat) | UnpackFailed

  /** What `extract_gz_file` returns: the unpacked path, or the reason there is none. */
  datatype Unpacking = Unpacked(path: string) | NotUnpacked(error: UnpackError)

  /** The world outside the model as the worker meets it. */
  datatype Disk = Disk(
    codecs: Codecs,
    /** The file at each path: its bytes and the free space of its disk */
    file: string -> LogFile,
    /** Free bytes of the disk holding each archive */
    archiveFree: string -> nat,
    /** Whether creating the extraction directory and decompressing an archive succeed */
    unpacks: string -> bool,
    /** The directory `tempfile.mkdtemp` creates */
    freshTemp: string)

  /** The temporary directory `extract_gz_file` uses: the one made before, or a new one. */
  function TempFor(temp: Option<string>, disk: Disk): string {
    if temp.Some? then temp.value else disk.freshTemp
  }

  /** What `extract_gz_file` returns for `archive` with the temporary directory `temp`
      (lines 1074-1111): too little free space refuses before anything is written. */
  function Unpack(disk: Disk, temp: string, archive: string): Unpacking {
    if disk.archiveFree(archive) < MinFreeSpace then NotUnpacked(LowDiskSpace(disk.archiveFree(archive)))
    else if disk.unpacks(archive) then Unpacked(ExtractTarget(temp, archive))
    else NotUnpacked(UnpackFailed)
  }

  // ---------------------------------------------------------------------------------------
  // Filing results

  /** An entry of `results`: the records, the error, and the archive the file came from. */
  datatype FileResult = FileResult(records: seq<string>, error: Option<Error>, source: Option<string>)

  function ResultOf(o: Outcome, source: Option<string>): FileResult {
    FileResult(o.records, o.error, source)
  }

  /** The tree id a file's records are filed under: the archive it came from, else its own
      path (an empty archive name counts as none, as Python's truth test has it). */
  function TreeId(path: string, source: Option<string>): (tid: string)
    ensures tid == path || (source.Some? && tid == source.value)
    ensures source.Some? && source.value != "" ==> tid == source.value
    ensures source.None? || source.value == "" ==> tid == path
  {
    if source.Some? && source.value != "" then source.value else path
  }

  /** Some record contains U+FFFD. */
  predicate HasGarbled(records: seq<string>) {
    exists r :: r in records && IsGarbled(r)
  }

  /** The position in `order` of the first path filed under `tid`, from position `from` on. */
  function FiledFrom(order: seq<string>, treeIdOf: map<string, string>, tid: string, from: nat): (r: Option<nat>)
    decreases |order| - from
    ensures r.Some? ==> from <= r.value < |order|
  {
    if from >= |order| then None
    else if order[from] in treeIdOf && treeIdOf[order[from]] == tid then Some(from)
    else FiledFrom(order, treeIdOf, tid, from + 1)
  }

  lemma {:induction false} FiledFromIsFirst(order: seq<string>, treeIdOf: map<string, string>, tid: string, from: nat)
    decreases |order| - from
    ensures var r := FiledFrom(order, treeIdOf, tid, from);
      && (r.Some? ==> order[r.value] in treeIdOf && treeIdOf[order[r.value]] == tid)
      && (forall j :: from <= j < |order| && (r.None? || j < r.value) ==>
            order[j] !in treeIdOf || treeIdOf[order[j]] != tid)
  {
    if from < |order| && !(order[from] in treeIdOf && treeIdOf[order[from]] == tid) {
      FiledFromIsFirst(order, treeIdOf, tid, from + 1);
    }
  }

  /** The path the post-pass rewrites for `tid`: the first path, in the order the paths were
      first filed, whose tree id is `tid`. */
  function PathOf(order: seq<string>, treeIdOf: map<string, string>, tid: string): Option<string> {
    match FiledFrom(order, treeIdOf, tid, 0)
    case None => None
    case Some(i) => Some(order[i])
  }

  /** With every filed path in `order`, a path is found exactly when some path is filed under
      `tid`, and it is the first such path in `order`. */
  lemma PathOfFinds(order: seq<string>, treeIdOf: map<string, string>, tid: string)
    requires forall p :: p in treeIdOf ==> p in order
    ensures PathOf(order, treeIdOf, tid).Some? <==> tid in treeIdOf.Values
    ensures PathOf(order, treeIdOf, tid).Some? ==>
      PathOf(order, treeIdOf, tid).value in treeIdOf && treeIdOf[PathOf(order, treeIdOf, tid).value] == tid
  {
    FiledFromIsFirst(order, treeIdOf, tid, 0);
  }

  /** The path found for `tid` is the first one in `order` filed under it. */
  lemma PathOfIsFirst(order: seq<string>, treeIdOf: map<string, string>, tid: string)
    ensures PathOf(order, treeIdOf, tid).Some? ==>
      exists i :: 0 <= i < |order| && order[i] == PathOf(order, treeIdOf, tid).value &&
        forall j :: 0 <= j < i ==> order[j] !in treeIdOf || treeIdOf[order[j]] != tid
  {
    FiledFromIsFirst(order, treeIdOf, tid, 0);
  }

  /** What `process_log` returns for each path when `validate_content` reprocesses it. */
  type Reprocess = string -> Outcome

  /** Reprocessing with each path's file from `disk` and its stop budget from `schedule`. */
  function ProcessingOf(disk: Disk, schedule: string -> nat): Reprocess {
    p => Processing(disk.codecs, disk.file(p), schedule(p))
  }

  /** What reprocessing gives a tree id holding `records` in `validate_content`, `path` being
      the path found for it (lines 1221-1267): only records with U+FFFD are reprocessed, only
      a found, non-empty path is, and only a result without error and without U+FFFD is kept. */
  function Reprocessing(reprocess: Reprocess, records: seq<string>, path: Option<string>): (r: Option<seq<string>>)
    ensures r.Some? ==> HasGarbled(records) && path.Some? && !HasGarbled(r.value)
    ensures r.Some? ==>
      path.value != "" && reprocess(path.value).error.None? && r.value == reprocess(path.value).records
    ensures r.None? && HasGarbled(records) && path.Some? && path.value != "" ==>
      reprocess(path.value).error.Some? || HasGarbled(reprocess(path.value).records)
  {
    if !HasGarbled(records) || path.None? || path.value == "" then None
    else
      var o := reprocess(path.value);
      if o.error.None? && !HasGarbled(o.records) then Some(o.records) else None
  }

  /** A post-pass over `results_by_id`: the new records it gives a tree id holding `records`,
      `path` being the path found for it, or `None` to leave them as they are. */
  type Rewrite = (seq<string>, Option<string>) -> Option<seq<string>>

  /** The rewrite `validate_content` applies (lines 1221-1267). */
  function Revalidation(reprocess: Reprocess): Rewrite {
    (records: seq<string>, path: Option<string>) => Reprocessing(reprocess, records, path)
  }

  /** The rewrite `deduplicate_records` applies (lines 1295-1316): records that are there lose
      their repeats. */
  function Deduplication(): Rewrite {
    (records: seq<string>, path: Option<string>) => if records != [] then Some(Dedup(records)) else None
  }

  /** The records under each tree id after `pass`, from those before. */
  function RewrittenIds(pass: Rewrite, byId: map<string, seq<string>>, order: seq<string>,
                        treeIdOf: map<string, string>): (m: map<string, seq<string>>)
    ensures m.Keys == byId.Keys
  {
    map tid | tid in byId ::
      match pass(byId[tid], PathOf(order, treeIdOf, tid))
      case Some(r) => r
      case None => byId[tid]
  }

  /** The records of each path after `pass`: a path is rewritten, with the same records as its
      tree id, exactly when it is the path found for its tree id and the tree id's records are
      rewritten. */
  function RewrittenPaths(pass: Rewrite, byId: map<string, seq<string>>, order: seq<string>,
                          treeIdOf: map<string, string>, all: map<string, seq<string>>): (m: map<string, seq<string>>)
    ensures m.Keys == all.Keys
  {
    map p | p in all ::
      if p in treeIdOf && treeIdOf[p] in byId && PathOf(order, treeIdOf, treeIdOf[p]) == Some(p) then
        match pass(byId[treeIdOf[p]], Some(p))
        case Some(r) => r
        case None => all[p]
      else all[p]
  }

  /** The records under each tree id after `pass` has visited the tree ids `items` in turn. */
  function IdsAfter(pass: Rewrite, byId: map<string, seq<string>>, order: seq<string>,
                    treeIdOf: map<string, string>, items: seq<string>): map<string, seq<string>>
    requires forall x :: x in items ==> x in byId
  {
    if items == [] then byId
    else
      var tid := items[|items| - 1];
      var before := IdsAfter(pass, byId, order, treeIdOf, items[..|items| - 1]);
      match pass(byId[tid], PathOf(order, treeIdOf, tid))
      case Some(r) => before[tid := r]
      case None => before
  }

  /** The records of each path after `pass` has visited the tree ids `items` in turn. */
  function PathsAfter(pass: Rewrite, byId: map<string, seq<string>>, order: seq<string>,
                      treeIdOf: map<string, string>, all: map<string, seq<string>>, items: seq<string>): map<string, seq<string>>
    requires forall x :: x in items ==> x in byId
  {
    if items == [] then all
    else
      var tid := items[|items| - 1];
      var before := PathsAfter(pass, byId, order, treeIdOf, all, items[..|items| - 1]);
      var path := PathOf(order, treeIdOf, tid);
      match pass(byId[tid], path)
      case Some(r) => if path.Some? then before[path.value := r] else before
      case None => before
  }

  /** Visiting one more tree id rewrites at most its own records. */
  lemma IdsAfterStep(pass: Rewrite, byId: map<string, seq<string>>, order: seq<string>,
                     treeIdOf: map<string, string>, items: seq<string>, i: nat)
    requires i < |items| && forall x :: x in items ==> x in byId
    ensures var before := IdsAfter(pass, byId, order, treeIdOf, items[..i]);
      var r := pass(byId[items[i]], PathOf(order, treeIdOf, items[i]));
      IdsAfter(pass, byId, order, treeIdOf, items[..i + 1]) == if r.Some? then before[items[i] := r.value] else before
  {
    assert items[..i + 1][..i] == items[..i];
  }

  /** Visiting one more tree id rewrites at most the path found for it. */
  lemma PathsAfterStep(pass: Rewrite, byId: map<string, seq<string>>, order: seq<string>,
                       treeIdOf: map<string, string>, all: map<string, seq<string>>, items: seq<string>, i: nat)
    requires i < |items| && forall x :: x in items ==> x in byId
    ensures var before := PathsAfter(pass, byId, order, treeIdOf, all, items[..i]);
      var path := PathOf(order, treeIdOf, items[i]);
      var r := pass(byId[items[i]], path);
      PathsAfter(pass, byId, order, treeIdOf, all, items[..i + 1]) ==
        if r.Some? && path.Some? then before[path.value := r.value] else before
  {
    assert items[..i + 1][..i] == items[..i];
  }

  lemma IdsAfterLast(pass: Rewrite, byId: map<string, seq<string>>, order: seq<string>,
                     treeIdOf: map<string, string>, items: seq<string>)
    requires items != [] && forall x :: x in items ==> x in byId
    ensures var tid := items[|items| - 1];
      var before := IdsAfter(pass, byId, order, treeIdOf, items[..|items| - 1]);
      var r := pass(byId[tid], PathOf(order, treeIdOf, tid));
      IdsAfter(pass, byId, order, treeIdOf, items) == if r.Some? then before[tid := r.value] else before
  {
  }

  lemma PathsAfterLast(pass: Rewrite, byId: map<string, seq<string>>, order: seq<string>,
                       treeIdOf: map<string, string>, all: map<string, seq<string>>, items: seq<string>)
    requires items != [] && forall x :: x in items ==> x in byId
    ensures var tid := items[|items| - 1];
      var before := PathsAfter(pass, byId, order, treeIdOf, all, items[..|items| - 1]);
      var path := PathOf(order, treeIdOf, tid);
      var r := pass(byId[tid], path);
      PathsAfter(pass, byId, order, treeIdOf, all, items) ==
        if r.Some? && path.Some? then before[path.value := r.value] else before
  {
  }

  /** Visiting the tree ids in turn gives every tree id its rewritten records. */
  lemma {:induction false} IdsAfterVisits(pass: Rewrite, byId: map<string, seq<string>>, order: seq<string>,
                                          treeIdOf: map<string, string>, items: seq<string>)
    requires forall x :: x in items ==> x in byId
    ensures IdsAfter(pass, byId, order, treeIdOf, items).Keys == byId.Keys
    ensures forall tid :: tid in byId ==>
      IdsAfter(pass, byId, order, treeIdOf, items)[tid] ==
      (if tid in items then RewrittenIds(pass, byId, order, treeIdOf)[tid] else byId[tid])
  {
    if items != [] {
      var init := items[..|items| - 1];
      var tid := items[|items| - 1];
      IdsAfterVisits(pass, byId, order, treeIdOf, init);
      assert items == init + [tid];
      IdsAfterLast(pass, byId, order, treeIdOf, items);
      IdsVisitOne(RewrittenIds(pass, byId, order, treeIdOf), byId, init, items, tid,
                  IdsAfter(pass, byId, order, treeIdOf, init), IdsAfter(pass, byId, order, treeIdOf, items),
                  pass(byId[tid], PathOf(order, treeIdOf, tid)));
    }
  }

  /** The step of `IdsAfterVisits`: `after` is `before` with the records of `tid` rewritten to
      `r`, if any. */
  lemma IdsVisitOne(rewritten: map<string, seq<string>>, byId: map<string, seq<string>>,
                    init: seq<string>, items: seq<string>, tid: string,
                    before: map<string, seq<string>>, after: map<string, seq<string>>, r: Option<seq<string>>)
    requires items == init + [tid] && tid in byId && rewritten.Keys == byId.Keys
    requires rewritten[tid] == if r.Some? then r.value else byId[tid]
    requires before.Keys == byId.Keys
    requires forall k :: k in byId ==> before[k] == (if k in init then rewritten[k] else byId[k])
    requires after == if r.Some? then before[tid := r.value] else before
    ensures after.Keys == byId.Keys
    ensures forall k :: k in byId ==> after[k] == (if k in items then rewritten[k] else byId[k])
  {
    forall k | k in byId
      ensures after[k] == if k in items then rewritten[k] else byId[k]
    {
      if k != tid {
        assert k in items <==> k in init;
      }
    }
  }

  /** Visiting every tree id gives `RewrittenIds`. */
  lemma IdsAfterAll(pass: Rewrite, byId: map<string, seq<string>>, order: seq<string>,
                    treeIdOf: map<string, string>, items: seq<string>)
    requires forall x :: x in items <==> x in byId
    ensures IdsAfter(pass, byId, order, treeIdOf, items) == RewrittenIds(pass, byId, order, treeIdOf)
  {
    IdsAfterVisits(pass, byId, order, treeIdOf, items);
  }

  /** Visiting the tree ids in turn rewrites exactly the paths found for them. */
  lemma {:induction false} PathsAfterVisits(pass: Rewrite, byId: map<string, seq<string>>, order: seq<string>,
                                            treeIdOf: map<string, string>, all: map<string, seq<string>>,
                                            items: seq<string>)
    requires forall x :: x in items ==> x in byId
    requires all.Keys == treeIdOf.Keys && (forall p :: p in treeIdOf ==> p in order)
    ensures PathsAfter(pass, byId, order, treeIdOf, all, items).Keys == all.Keys
    ensures forall p :: p in all ==>
      PathsAfter(pass, byId, order, treeIdOf, all, items)[p] ==
      (if treeIdOf[p] in items then RewrittenPaths(pass, byId, order, treeIdOf, all)[p] else all[p])
  {
    if items != [] {
      var init := items[..|items| - 1];
      var tid := items[|items| - 1];
      PathsAfterVisits(pass, byId, order, treeIdOf, all, init);
      assert items == init + [tid];
      PathOfFinds(order, treeIdOf, tid);
      var rewritten := RewrittenPaths(pass, byId, order, treeIdOf, all);
      var path := PathOf(order, treeIdOf, tid);
      var r := pass(byId[tid], path);
      forall p | p in all && treeIdOf[p] == tid
        ensures rewritten[p] == if r.Some? && path == Some(p) then r.value else all[p]
      {
      }
      PathsAfterLast(pass, byId, order, treeIdOf, all, items);
      PathsVisitOne(rewritten, treeIdOf, all, init, items, tid,
                    PathsAfter(pass, byId, order, treeIdOf, all, init),
                    PathsAfter(pass, byId, order, treeIdOf, all, items), r, path);
    }
  }

  /** The step of `PathsAfterVisits`: `after` is `before` with the records of the path found
      for `tid` rewritten to `r`, if any. */
  lemma PathsVisitOne(rewritten: map<string, seq<string>>, treeIdOf: map<string, string>,
                      all: map<string, seq<string>>, init: seq<string>, items: seq<string>, tid: string,
                      before: map<string, seq<string>>, after: map<string, seq<string>>,
                      r: Option<seq<string>>, path: Option<string>)
    requires items == init + [tid] && all.Keys == treeIdOf.Keys && rewritten.Keys == all.Keys
    requires path.Some? ==> path.value in treeIdOf && treeIdOf[path.value] == tid
    requires forall p :: p in all && treeIdOf[p] == tid ==>
      rewritten[p] == (if r.Some? && path == Some(p) then r.value else all[p])
    requires before.Keys == all.Keys
    requires forall p :: p in all ==> before[p] == (if treeIdOf[p] in init then rewritten[p] else all[p])
    requires after == if r.Some? && path.Some? then before[path.value := r.value] else before
    ensures after.Keys == all.Keys
    ensures forall p :: p in all ==> after[p] == (if treeIdOf[p] in items then rewritten[p] else all[p])
  {
    forall p | p in all
      ensures after[p] == if treeIdOf[p] in items then rewritten[p] else all[p]
    {
      if treeIdOf[p] != tid {
        assert treeIdOf[p] in items <==> treeIdOf[p] in init;
      }
    }
  }

  /** Visiting every tree id gives `RewrittenPaths`. */
  lemma PathsAfterAll(pass: Rewrite, byId: map<string, seq<string>>, order: seq<string>,
                      treeIdOf: map<string, string>, all: map<string, seq<string>>, items: seq<string>)
    requires forall x :: x in items <==> x in byId
    requires all.Keys == treeIdOf.Keys && treeIdOf.Values <= byId.Keys && (forall p :: p in treeIdOf ==> p in order)
    ensures PathsAfter(pass, byId, order, treeIdOf, all, items) == RewrittenPaths(pass, byId, order, treeIdOf, all)
  {
    PathsAfterVisits(pass, byId, order, treeIdOf, all, items);
    forall p | p in all
      ensures treeIdOf[p] in items
    {
      assert treeIdOf[p] in treeIdOf.Values;
    }
  }

  /** The number of tree ids among `items` whose records `pass` rewrites. */
  function RewriteCount(pass: Rewrite, byId: map<string, seq<string>>, order: seq<string>,
                        treeIdOf: map<string, string>, items: seq<string>): nat
    requires forall x :: x in items ==> x in byId
  {
    if items == [] then 0
    else
      var tid := items[|items| - 1];
      RewriteCount(pass, byId, order, treeIdOf, items[..|items| - 1]) +
      (if pass(byId[tid], PathOf(order, treeIdOf, tid)).Some? then 1 else 0)
  }

  /** The number of records `deduplicate_records` removes from the tree ids `items`. */
  function RemovedCount(byId: map<string, seq<string>>, items: seq<string>): nat
    requires forall x :: x in items ==> x in byId
  {
    if items == [] then 0
    else
      var records := byId[items[|items| - 1]];
      DedupRemovedCount(records);
      RemovedCount(byId, items[..|items| - 1]) + (|records| - |Dedup(records)|)
  }

  // ---------------------------------------------------------------------------------------
  // The filing dictionaries

  /** The dictionaries agree with their key orders, every filed path has records and an
      outcome, and every tree id a path is filed under has records. */
  ghost predicate Filed(ids: seq<string>, byId: map<string, seq<string>>, paths: seq<string>,
                        treeIdOf: map<string, string>, all: map<string, seq<string>>, results: map<string, FileResult>)
  {
    && NoRepeats(ids) && (forall x :: x in ids <==> x in byId)
    && NoRepeats(paths) && (forall p :: p in paths <==> p in treeIdOf)
    && treeIdOf.Values <= byId.Keys
    && all.Keys == treeIdOf.Keys
    && results.Keys == treeIdOf.Keys
  }

  lemma ValuesUpdate(m: map<string, string>, k: string, v: string)
    ensures m[k := v].Values <= m.Values + {v}
  {
    forall x | x in m[k := v].Values
      ensures x in m.Values + {v}
    {
      var j :| j in m[k := v] && m[k := v][j] == x;
      if j != k {
        assert m[j] == x;
      }
    }
  }

  /** Filing the outcome of `path` under the path and the records under `tid` keeps the
      dictionaries in agreement, a new key going to the end of its order. */
  lemma FilingOutcome(ids: seq<string>, byId: map<string, seq<string>>, paths: seq<string>,
                      treeIdOf: map<string, string>, all: map<string, seq<string>>, results: map<string, FileResult>,
                      path: string, tid: string, r: FileResult,
                      ids': seq<string>, byId': map<string, seq<string>>, paths': seq<string>,
                      treeIdOf': map<string, string>, all': map<string, seq<string>>, results': map<string, FileResult>)
    requires Filed(ids, byId, paths, treeIdOf, all, results)
    requires ids' == (if tid in byId then ids else ids + [tid]) && byId' == byId[tid := r.records]
    requires paths' == (if path in treeIdOf then paths else paths + [path]) && treeIdOf' == treeIdOf[path := tid]
    requires all' == all[path := r.records] && results' == results[path := r]
    ensures Filed(ids', byId', paths', treeIdOf', all', results')
  {
    ValuesUpdate(treeIdOf, path, tid);
  }

  /** Rewriting records under keys already present keeps the dictionaries in agreement. */
  lemma FilingRewrite(ids: seq<string>, byId: map<string, seq<string>>, paths: seq<string>,
                      treeIdOf: map<string, string>, all: map<string, seq<string>>, results: map<string, FileResult>,
                      byId': map<string, seq<string>>, all': map<string, seq<string>>)
    requires Filed(ids, byId, paths, treeIdOf, all, results)
    requires byId'.Keys == byId.Keys && all'.Keys == all.Keys
    ensures Filed(ids, byId', paths, treeIdOf, all', results)
  {
  }

  // ---------------------------------------------------------------------------------------
  // The application state

  class ChatExtractor {
    /** `task_queue` */
    var queue: seq<Task>
    /** `results`: the outcome of each processed path */
    var results: map<string, FileResult>
    /** `all_results`: the records of each processed path */
    var allResults: map<string, seq<string>>
    /** `results_by_id`: the records filed under each tree id */
    var resultsById: map<string, seq<string>>
    /** The keys of `resultsById` in the order they were first filed (dictionary order) */
    var ids: seq<string>
    /** `filepath_to_treeid` */
    var treeIdOf: map<string, string>
    /** The keys of `treeIdOf` in the order they were first filed (dictionary order) */
    var paths: seq<string>
    var processedFiles: nat
    var currentlyProcessing: nat
    var stopRequested: bool
    /** `temp_dir`, made by the first unpacking */
    var tempDir: Option<string>

    ghost predicate Valid()
      reads this`ids, this`resultsById, this`paths, this`treeIdOf, this`allResults, this`results
    {
      Filed(ids, resultsById, paths, treeIdOf, allResults, results)
    }

    constructor ()
      ensures Valid()
      ensures queue == [] && resultsById == map[] && treeIdOf == map[] && allResults == map[]
      ensures !stopRequested && tempDir == None && processedFiles == 0
    {
      queue := [];
      results := map[];
      allResults := map[];
      resultsById := map[];
      ids := [];
      treeIdOf := map[];
      paths := [];
      processedFiles := 0;
      currentlyProcessing := 0;
      stopRequested := false;
      tempDir := None;
    }

    /** The queueing part of `process_files` (lines 898-960), the files given in the order
        chosen for them: the stop flag is cleared and every file is queued, tagged. */
    method ProcessFiles(files: seq<string>)
      modifies this`queue, this`stopRequested, this`processedFiles, this`currentlyProcessing
      ensures queue == old(queue) + Tags(files)
      ensures !stopRequested && processedFiles == 0 && currentlyProcessing == 0
    {
      stopRequested := false;
      processedFiles := 0;
      currentlyProcessing := 0;
      for i := 0 to |files|
        invariant queue == old(queue) + Tags(files[..i])
        invariant !stopRequested && processedFiles == 0 && currentlyProcessing == 0
      {
        assert Tags(files[..i + 1]) == Tags(files[..i]) + [Tag(files[i])];
        queue := queue + [Tag(files[i])];
      }
      assert files[..|files|] == files;
    }

    /** `stop_processing` (lines 970-997): set the stop flag and empty the queue. */
    method StopProcessing()
      modifies this`queue, this`stopRequested
      ensures stopRequested && queue == []
      ensures old(Valid()) ==> Valid()
    {
      stopRequested := true;
      while queue != []
        invariant stopRequested
        decreases |queue|
      {
        queue := queue[1..];
      }
    }

    /** `extract_gz_file` (lines 1074-1111): the temporary directory is made once the free
        space is found sufficient, whether or not unpacking then succeeds. */
    method ExtractGzFile(disk: Disk, archive: string) returns (r: Unpacking)
      modifies this`tempDir
      ensures r == Unpack(disk, TempFor(old(tempDir), disk), archive)
      ensures tempDir == if r == NotUnpacked(LowDiskSpace(disk.archiveFree(archive))) then old(tempDir)
                         else Some(TempFor(old(tempDir), disk))
    {
      var free := disk.archiveFree(archive);
      if free < MinFreeSpace {
        return NotUnpacked(LowDiskSpace(free));
      }
      if tempDir == None {
        tempDir := Some(disk.freshTemp);
      }
      if disk.unpacks(archive) {
        r := Unpacked(ExtractTarget(tempDir.value, archive));
      } else {
        r := NotUnpacked(UnpackFailed);
      }
    }

    /** The handling of an extract task (lines 1124-1151): a successful unpacking queues the
        unpacked file for processing at the tail, with the archive as its source; a failed one
        queues nothing. */
    method RunExtractTask(disk: Disk, archive: string)
      requires Valid()
      modifies this`queue, this`tempDir
      ensures Valid()
      ensures var r := Unpack(disk, TempFor(old(tempDir), disk), archive);
        queue == old(queue) + (if r.Unpacked? then [ProcessTask(r.path, Some(archive))] else [])
      ensures tempDir == if disk.archiveFree(archive) < MinFreeSpace then old(tempDir)
                         else Some(TempFor(old(tempDir), disk))
    {
      var r := ExtractGzFile(disk, archive);
      if r.Unpacked? {
        queue := queue + [ProcessTask(r.path, Some(archive))];
      }
    }

    /** The handling of a process task (lines 1153-1203): the file is processed, and the
        outcome filed under the path and the records also under the tree id. */
    method RunProcessTask(disk: Disk, path: string, source: Option<string>, stopAfter: nat)
      returns (o: Outcome)
      requires Valid()
      modifies this`results, this`allResults, this`resultsById, this`ids, this`treeIdOf, this`paths,
        this`processedFiles, this`currentlyProcessing
      ensures o == Processing(disk.codecs, disk.file(path), stopAfter)
      ensures Valid()
      ensures resultsById == old(resultsById)[TreeId(path, source) := o.records]
      ensures treeIdOf == old(treeIdOf)[path := TreeId(path, source)]
      ensures allResults == old(allResults)[path := o.records]
      ensures results == old(results)[path := ResultOf(o, source)]
      ensures processedFiles == old(processedFiles) + 1
      ensures resultsById.Keys == old(resultsById).Keys + {TreeId(path, source)}
      ensures allResults.Keys == old(allResults).Keys + {path}
      ensures currentlyProcessing == old(currentlyProcessing) + 1
      ensures ids == if TreeId(path, source) in old(resultsById) then old(ids) else old(ids) + [TreeId(path, source)]
      ensures paths == if path in old(treeIdOf) then old(paths) else old(paths) + [path]
    {
      currentlyProcessing := currentlyProcessing + 1;
      o := ProcessLog(disk.codecs, disk.file(path), stopAfter);
      FileOutcome(path, source, o);
    }

    /** The filing of a processed file's outcome `o` (lines 1187-1203). */
    method FileOutcome(path: string, source: Option<string>, o: Outcome)
      requires Valid()
      modifies this`results, this`allResults, this`resultsById, this`ids, this`treeIdOf, this`paths,
        this`processedFiles
      ensures Valid()
      ensures resultsById == old(resultsById)[TreeId(path, source) := o.records]
      ensures treeIdOf == old(treeIdOf)[path := TreeId(path, source)]
      ensures allResults == old(allResults)[path := o.records]
      ensures results == old(results)[path := ResultOf(o, source)]
      ensures processedFiles == old(processedFiles) + 1
      ensures ids == if TreeId(path, source) in old(resultsById) then old(ids) else old(ids) + [TreeId(path, source)]
      ensures paths == if path in old(treeIdOf) then old(paths) else old(paths) + [path]
    {
      var tid := TreeId(path, source);
      ghost var (ids0, byId0, paths0, treeIdOf0, all0, results0) := (ids, resultsById, paths, treeIdOf, allResults, results);
      FileById(tid, o.records);
      FileByPath(path, tid, ResultOf(o, source));
      FilingOutcome(ids0, byId0, paths0, treeIdOf0, all0, results0, path, tid, ResultOf(o, source),
                    ids, resultsById, paths, treeIdOf, allResults, results);
      processedFiles := processedFiles + 1;
    }

    /** `results_by_id[tree_id] = records` (line 1200). */
    method FileById(tid: string, records: seq<string>)
      modifies this`resultsById, this`ids
      ensures resultsById == old(resultsById)[tid := records]
      ensures ids == if tid in old(resultsById) then old(ids) else old(ids) + [tid]
    {
      if tid !in resultsById {
        ids := ids + [tid];
      }
      resultsById := resultsById[tid := records];
    }

    /** `results[file_path] = ...`, `all_results[file_path] = records` and
        `filepath_to_treeid[file_path] = tree_id` (lines 1187-1201). */
    method FileByPath(path: string, tid: string, r: FileResult)
      modifies this`results, this`allResults, this`treeIdOf, this`paths
      ensures results == old(results)[path := r]
      ensures allResults == old(allResults)[path := r.records]
      ensures treeIdOf == old(treeIdOf)[path := tid]
      ensures paths == if path in old(treeIdOf) then old(paths) else old(paths) + [path]
    {
      results := results[path := r];
      allResults := allResults[path := r.records];
      if path !in treeIdOf {
        paths := paths + [path];
      }
      treeIdOf := treeIdOf[path := tid];
    }

    /** One turn of `worker` (lines 1116-1203) while the flag is clear: the task at the head of
        the queue is taken and handled. `file` is the path processed, if it was a process task,
        and `stopSeen` tells whether that file ended with the stop error. */
    method WorkerStep(disk: Disk, schedule: string -> nat) returns (ghost file: Option<string>, stopSeen: bool)
      requires Valid() && queue != []
      modifies this`queue, this`tempDir, this`results, this`allResults, this`resultsById, this`ids,
        this`treeIdOf, this`paths, this`processedFiles, this`currentlyProcessing
      ensures Valid()
      ensures Weight(queue) < Weight(old(queue))
      ensures file.None? ==> results == old(results) && processedFiles == old(processedFiles) && !stopSeen
      ensures file.Some? ==> file.value in results && processedFiles == old(processedFiles) + 1
      ensures file.Some? ==> (stopSeen <==> results[file.value].error == Some(StopRequested))
      ensures old(results).Keys <= results.Keys
      ensures old(resultsById).Keys <= resultsById.Keys
      ensures old(treeIdOf).Keys <= treeIdOf.Keys
    {
      var task, rest := queue[0], queue[1..];
      assert queue == [task] + rest;
      queue := rest;
      match task
      case ExtractTask(archive) =>
        ghost var r := Unpack(disk, TempFor(tempDir, disk), archive);
        RunExtractTask(disk, archive);
        ExtractShrinksQueue(archive, rest, r);
        file, stopSeen := None, false;
      case ProcessTask(path, source) =>
        ProcessShrinksQueue(task, rest);
        var o := RunProcessTask(disk, path, source, schedule(path));
        file, stopSeen := Some(path), o.error == Some(StopRequested);
    }

    /** `worker` (lines 1113-1210): until the stop flag is set or the queue is empty, takes the
        task at the head of the queue and handles it, processing each file with the stop budget
        `schedule` gives its path. A file that ends with the stop error was stopped by
        `stop_processing`, which also set the worker's flag and emptied the queue, so the worker
        ends after filing it. `handled` lists the paths processed, in order. */
    method RunWorker(disk: Disk, schedule: string -> nat) returns (ghost handled: seq<string>)
      requires Valid()
      modifies this`queue, this`tempDir, this`results, this`allResults, this`resultsById, this`ids,
        this`treeIdOf, this`paths, this`processedFiles, this`currentlyProcessing, this`stopRequested
      ensures Valid()
      ensures old(stopRequested) ==> stopRequested && handled == []
      ensures old(stopRequested) ==> queue == old(queue) && resultsById == old(resultsById)
      ensures old(stopRequested) || queue == []
      ensures forall p :: p in handled ==> p in results
      ensures !old(stopRequested) ==>
        (stopRequested <==> handled != [] && results[handled[|handled| - 1]].error == Some(StopRequested))
      ensures old(resultsById).Keys <= resultsById.Keys
      ensures old(treeIdOf).Keys <= treeIdOf.Keys
      ensures processedFiles == old(processedFiles) + |handled|
    {
      handled := [];
      if stopRequested {
        return;
      }
      while !stopRequested && queue != []
        invariant Valid()
        invariant stopRequested ==> queue == []
        invariant forall p :: p in handled ==> p in results
        invariant stopRequested <==> handled != [] && results[handled[|handled| - 1]].error == Some(StopRequested)
        invariant old(resultsById).Keys <= resultsById.Keys
        invariant old(treeIdOf).Keys <= treeIdOf.Keys
        invariant processedFiles == old(processedFiles) + |handled|
        decreases Weight(queue)
      {
        var file, stopSeen := WorkerStep(disk, schedule);
        if file.Some? {
          handled := handled + [file.value];
        }
        if stopSeen {
          StopProcessing();
        }
      }
    }

    /** The search for the first path filed under `tid` in `validate_content` and
        `deduplicate_records` (lines 1229-1233, 1311-1315). */
    method FindPath(tid: string) returns (p: Option<string>)
      ensures p == PathOf(paths, treeIdOf, tid)
    {
      var k := 0;
      while k < |paths|
        invariant k <= |paths|
        invariant FiledFrom(paths, treeIdOf, tid, 0) == FiledFrom(paths, treeIdOf, tid, k)
      {
        if paths[k] in treeIdOf && treeIdOf[paths[k]] == tid {
          return Some(paths[k]);
        }
        k := k + 1;
      }
      return None;
    }

    /** `validate_content` (lines 1212-1280): each tree id whose records contain U+FFFD has
        its first filed path reprocessed, and the records of both are replaced when that
        succeeds without U+FFFD; the number replaced is returned. */
    method ValidateContent(disk: Disk, schedule: string -> nat) returns (revalidated: nat)
      requires Valid()
      modifies this`resultsById, this`allResults
      ensures Valid()
      ensures stopRequested ==> revalidated == 0 && resultsById == old(resultsById) && allResults == old(allResults)
      ensures !stopRequested ==>
        var pass := Revalidation(ProcessingOf(disk, schedule));
        && resultsById == RewrittenIds(pass, old(resultsById), paths, treeIdOf)
        && allResults == RewrittenPaths(pass, old(resultsById), paths, treeIdOf, old(allResults))
        && revalidated == RewriteCount(pass, old(resultsById), paths, treeIdOf, ids)
    {
      revalidated := 0;
      if stopRequested {
        return;
      }
      var items := ids;
      var byId := resultsById;
      var all := allResults;
      ghost var pass := Revalidation(ProcessingOf(disk, schedule));
      revalidated := ValidateEach(disk, schedule, items);
      IdsAfterAll(pass, byId, paths, treeIdOf, items);
      PathsAfterAll(pass, byId, paths, treeIdOf, all, items);
      FilingRewrite(ids, byId, paths, treeIdOf, all, results, resultsById, allResults);
    }

    /** The loop of `validate_content` over the tree ids `items`. */
    method ValidateEach(disk: Disk, schedule: string -> nat, items: seq<string>) returns (revalidated: nat)
      requires forall x :: x in items ==> x in resultsById
      modifies this`resultsById, this`allResults
      ensures var pass := Revalidation(ProcessingOf(disk, schedule));
        && resultsById == IdsAfter(pass, old(resultsById), paths, treeIdOf, items)
        && allResults == PathsAfter(pass, old(resultsById), paths, treeIdOf, old(allResults), items)
        && revalidated == RewriteCount(pass, old(resultsById), paths, treeIdOf, items)
    {
      revalidated := 0;
      var byId := resultsById;
      var all := allResults;
      ghost var pass := Revalidation(ProcessingOf(disk, schedule));
      for i := 0 to |items|
        invariant resultsById == IdsAfter(pass, byId, paths, treeIdOf, items[..i])
        invariant allResults == PathsAfter(pass, byId, paths, treeIdOf, all, items[..i])
        invariant revalidated == RewriteCount(pass, byId, paths, treeIdOf, items[..i])
      {
        var tid := items[i];
        var path := FindPath(tid);
        IdsAfterStep(pass, byId, paths, treeIdOf, items, i);
        PathsAfterStep(pass, byId, paths, treeIdOf, all, items, i);
        assert items[..i + 1][..i] == items[..i];
        var done := ValidateOne(disk, schedule, tid, byId[tid], path);
        assert pass(byId[tid], path) == Reprocessing(ProcessingOf(disk, schedule), byId[tid], path);
        if done {
          revalidated := revalidated + 1;
        }
      }
      assert items[..|items|] == items;
    }

    /** The body of the `validate_content` loop for one tree id `tid` holding `records`,
        `path` being the path found for it. */
    method ValidateOne(disk: Disk, schedule: string -> nat, tid: string, records: seq<string>, path: Option<string>)
      returns (done: bool)
      modifies this`resultsById, this`allResults
      ensures var r := Reprocessing(ProcessingOf(disk, schedule), records, path);
        && done == r.Some?
        && resultsById == (if done then old(resultsById)[tid := r.value] else old(resultsById))
        && allResults == (if done then old(allResults)[path.value := r.value] else old(allResults))
    {
      done := false;
      if HasGarbled(records) && path.Some? && path.value != "" {
        var o := ProcessLog(disk.codecs, disk.file(path.value), schedule(path.value));
        if o.error.None? && !HasGarbled(o.records) {
          resultsById := resultsById[tid := o.records];
          allResults := allResults[path.value := o.records];
          done := true;
        }
      }
    }

    /** `deduplicate_records` (lines 1282-1318): the records under each tree id lose their
        repeats, the first path filed under it gets the same list, and the number of records
        removed is returned. */
    method DeduplicateRecords() returns (removed: nat)
      requires Valid()
      modifies this`resultsById, this`allResults
      ensures Valid()
      ensures stopRequested ==> removed == 0 && resultsById == old(resultsById) && allResults == old(allResults)
      ensures !stopRequested ==>
        && resultsById == RewrittenIds(Deduplication(), old(resultsById), paths, treeIdOf)
        && allResults == RewrittenPaths(Deduplication(), old(resultsById), paths, treeIdOf, old(allResults))
        && removed == RemovedCount(old(resultsById), ids)
    {
      removed := 0;
      if stopRequested {
        return;
      }
      var items := ids;
      var byId := resultsById;
      var all := allResults;
      removed := DedupEach(items);
      IdsAfterAll(Deduplication(), byId, paths, treeIdOf, items);
      PathsAfterAll(Deduplication(), byId, paths, treeIdOf, all, items);
      FilingRewrite(ids, byId, paths, treeIdOf, all, results, resultsById, allResults);
    }

    /** The loop of `deduplicate_records` over the tree ids `items`. */
    method DedupEach(items: seq<string>) returns (removed: nat)
      requires forall x :: x in items ==> x in resultsById
      requires forall p :: p in treeIdOf ==> p in paths
      modifies this`resultsById, this`allResults
      ensures resultsById == IdsAfter(Deduplication(), old(resultsById), paths, treeIdOf, items)
      ensures allResults == PathsAfter(Deduplication(), old(resultsById), paths, treeIdOf, old(allResults), items)
      ensures removed == RemovedCount(old(resultsById), items)
    {
      removed := 0;
      var byId := resultsById;
      var all := allResults;
      for i := 0 to |items|
        invariant resultsById == IdsAfter(Deduplication(), byId, paths, treeIdOf, items[..i])
        invariant allResults == PathsAfter(Deduplication(), byId, paths, treeIdOf, all, items[..i])
        invariant removed == RemovedCount(byId, items[..i])
      {
        var tid := items[i];
        IdsAfterStep(Deduplication(), byId, paths, treeIdOf, items, i);
        PathsAfterStep(Deduplication(), byId, paths, treeIdOf, all, items, i);
        assert items[..i + 1][..i] == items[..i];
        var delta := DedupOne(tid, byId[tid]);
        removed := removed + delta;
      }
      assert items[..|items|] == items;
    }

    /** The body of the `deduplicate_records` loop for one tree id `tid` holding `records`:
        returns the number of records removed. */
    method DedupOne(tid: string, records: seq<string>) returns (delta: nat)
      requires forall p :: p in treeIdOf ==> p in paths
      modifies this`resultsById, this`allResults
      ensures var path := PathOf(paths, treeIdOf, tid);
        var r := Deduplication()(records, path);
        && resultsById == (if r.Some? then old(resultsById)[tid := r.value] else old(resultsById))
        && allResults == (if r.Some? && path.Some? then old(allResults)[path.value := r.value] else old(allResults))
      ensures delta == |records| - |Dedup(records)|
    {
      delta := 0;
      if records != [] {
        var deduped := DedupRecords(records);
        DedupRemovedCount(records);
        delta := |records| - |deduped|;
        resultsById := resultsById[tid := deduped];
        PathOfFinds(paths, treeIdOf, tid);
        if tid in treeIdOf.Values {
          var path := FindPath(tid);
          allResults := allResults[path.value := deduped];
        }
      }
    }
  }

  /** Two units for an extract task (it may queue a process task), one for a process task. */
  function Weight(q: seq<Task>): nat {
    if q == [] then 0 else (if q[0].ExtractTask? then 2 else 1) + Weight(q[1..])
  }

  /** Handling an extract task lowers the weight of the queue, whether or not it queues a
      process task. */
  lemma ExtractShrinksQueue(archive: string, rest: seq<Task>, r: Unpacking)
    ensures Weight(rest + (if r.Unpacked? then [ProcessTask(r.path, Some(archive))] else []))
            < Weight([ExtractTask(archive)] + rest)
  {
    WeightAppend([ExtractTask(archive)], rest);
    if r.Unpacked? {
      WeightAppend(rest, [ProcessTask(r.path, Some(archive))]);
    } else {
      assert rest + [] == rest;
    }
  }

  /** Handling a process task lowers the weight of the queue. */
  lemma ProcessShrinksQueue(task: Task, rest: seq<Task>)
    ensures Weight(rest) < Weight([task] + rest)
  {
    WeightAppend([task], rest);
  }

  lemma {:induction false} WeightAppend(a: seq<Task>, b: seq<Task>)
    ensures Weight(a + b) == Weight(a) + Weight(b)
  {
    if a == [] {
      assert a + b == b;
    } else {
      WeightAppend(a[1..], b);
      assert (a + b)[1..] == a[1..] + b;
    }
  }
}
