/** Encoding detection of `LogProcessor.detect_encoding` and `select_best_encoding`. The
    detector library, decoding and the Unicode printable test are not reimplemented: they are
    the fields of a `Codecs` value, so every statement below holds whatever they answer. */
module Encoding {
  import opened Common
  import opened Text
  import opened ArgMax
  import opened ChatLine
  import opened Extraction

  /** What `chardet.detect` reports: an encoding name or none, and a confidence. `Unreadable`
      stands for an exception while reading the sample, after which detection falls back to
      UTF-8. */
  datatype Guess = Unreadable | Guess(encoding: Option<string>, confidence: real)

  /** The services the processor calls and this model does not reimplement. */
  datatype Codecs = Codecs(
    /** `chardet.detect(sample)` */
    detect: seq<Byte> -> Guess,
    /** `sample.decode(encoding, errors='ignore')` */
    decodeIgnoring: (string, seq<Byte>) -> string,
    /** `open(path, 'r', encoding=encoding, errors='replace')` read line by line, with each
        line's byte size as the source measures it */
    decodeLines: (string, seq<Byte>) -> seq<Line>,
    /** `str.isprintable()` on one character */
    isPrintable: char -> bool,
    /** whether Python knows a codec of that name; `open` raises `LookupError` otherwise */
    hasCodec: string -> bool)

  /** The candidate list shared by the best-encoding search and the backup attempts. */
  const BackupEncodings: seq<string> := [
    "utf-8", "gbk", "gb2312", "gb18030", "big5",
    "latin1", "cp1252", "utf-16", "utf-16-le", "utf-16-be",
    "iso-8859-1", "iso-8859-15", "euc-kr", "shift_jis",
    "cp932", "cp936", "cp949", "cp950", "ascii"
  ]

  /** How many bytes the BOM check reads. */
  const HeaderSize: nat := 4
  /** How many bytes are handed to the detector. */
  const SampleSize: nat := 50000
  /** Below this confidence the detector's answer is replaced by the best-scoring candidate. */
  const MinConfidence: real := 0.8
  /** Score bonus of a decoded sample in which one of the log prefixes occurs. */
  const LogFeatureBonus: real := 0.3

  /** The byte-order marks, in the order the dictionary lists them. */
  const Boms: seq<(seq<Byte>, string)> := [
    ([0xEF, 0xBB, 0xBF], "utf-8"),
    ([0xFF, 0xFE], "utf-16-le"),
    ([0xFE, 0xFF], "utf-16-be"),
    ([0xFF, 0xFE, 0x00, 0x00], "utf-32-le"),
    ([0x00, 0x00, 0xFE, 0xFF], "utf-32-be")
  ]

  predicate BytesStartWith(s: seq<Byte>, p: seq<Byte>) {
    |p| <= |s| && s[..|p|] == p
  }

  /** The first mark, from entry `k` on, that the header starts with. */
  function BomFrom(header: seq<Byte>, k: nat): (r: Option<string>)
    requires k <= |Boms|
    decreases |Boms| - k
    ensures r.Some? ==> exists i :: k <= i < |Boms| && BytesStartWith(header, Boms[i].0) && r.value == Boms[i].1
    ensures r.None? ==> forall i :: k <= i < |Boms| ==> !BytesStartWith(header, Boms[i].0)
  {
    if k == |Boms| then None
    else if BytesStartWith(header, Boms[k].0) then Some(Boms[k].1)
    else BomFrom(header, k + 1)
  }

  function BomEncoding(header: seq<Byte>): Option<string> {
    BomFrom(header, 0)
  }

  /** The UTF-32 little-endian mark starts with the UTF-16 little-endian one, which is listed
      first: no header is ever reported as UTF-32 little-endian. */
  lemma Utf32LeNeverDetected(header: seq<Byte>)
    ensures BomEncoding(header) != Some("utf-32-le")
  {
    if BytesStartWith(header, Boms[3].0) {
      assert header[..2] == header[..4][..2];
      assert header[0] == header[..4][0] == 0xFF;
      assert !BytesStartWith(header, Boms[0].0) by {
        if |header| >= 3 { assert header[..3][0] == header[0]; }
      }
      assert BytesStartWith(header, Boms[1].0);
    }
  }

  /** `ff fe 00 00` is reported as UTF-16 little-endian; each other mark as its own encoding. */
  lemma BomExamples(rest: seq<Byte>)
    ensures BomEncoding([0xFF, 0xFE, 0x00, 0x00] + rest) == Some("utf-16-le")
    ensures BomEncoding([0xEF, 0xBB, 0xBF] + rest) == Some("utf-8")
    ensures BomEncoding([0xFE, 0xFF] + rest) == Some("utf-16-be")
    ensures BomEncoding([0x00, 0x00, 0xFE, 0xFF] + rest) == Some("utf-32-be")
  {
    var a: seq<Byte> := [0xFF, 0xFE, 0x00, 0x00] + rest;
    assert a[..2] == [0xFF, 0xFE];
    var b: seq<Byte> := [0xEF, 0xBB, 0xBF] + rest;
    assert b[..3] == [0xEF, 0xBB, 0xBF];
    var c: seq<Byte> := [0xFE, 0xFF] + rest;
    assert !BytesStartWith(c, Boms[0].0) by {
      if |c| >= 3 { assert c[..3][0] == c[0] == 0xFE; }
    }
    assert c[..2] == [0xFE, 0xFF];
    var d: seq<Byte> := [0x00, 0x00, 0xFE, 0xFF] + rest;
    assert d[..4] == [0x00, 0x00, 0xFE, 0xFF];
    assert d[..3] != [0xEF, 0xBB, 0xBF] by { assert d[0] == 0; }
    assert d[..2] != [0xFF, 0xFE] by { assert d[0] == 0; }
    assert d[..2] != [0xFE, 0xFF] by { assert d[0] == 0; }
    assert d[..4] != [0xFF, 0xFE, 0x00, 0x00] by { assert d[0] == 0; }
  }

  /** The detector's name as the processor uses it: a missing or empty name means UTF-8, and
      so does ASCII in any letter case, being a subset of it. */
  function Normalized(name: Option<string>): (e: string)
    ensures e != []
  {
    if name.None? || name.value == [] then "utf-8"
    else if LowerEquals(name.value, "ascii") then "utf-8"
    else name.value
  }

  /** `c.isprintable() or c in '\r\n\t'` */
  predicate Printable(codecs: Codecs, c: char) {
    codecs.isPrintable(c) || c == '\r' || c == '\n' || c == '\t'
  }

  function PrintableCount(codecs: Codecs, s: string): (n: nat)
    ensures n <= |s|
  {
    if s == [] then 0
    else PrintableCount(codecs, s[..|s| - 1]) + (if Printable(codecs, s[|s| - 1]) then 1 else 0)
  }

  /** `any(prefix in decoded for prefix in prefixes)` */
  predicate HasLogFeature(decoded: string) {
    MatchingPrefix(decoded, Prefixes).Some?
  }

  /** The score of one candidate: the share of printable characters in the sample decoded
      while ignoring errors (0 for an empty decoding), plus a bonus when a log prefix occurs. */
  function Score(codecs: Codecs, encoding: string, sample: seq<Byte>): real {
    var decoded := codecs.decodeIgnoring(encoding, sample);
    var share := if decoded == [] then 0.0 else PrintableCount(codecs, decoded) as real / |decoded| as real;
    if HasLogFeature(decoded) then share + LogFeatureBonus else share
  }

  /** A score lies between 0 and 1.3; the bonus is there exactly when some prefix occurs in
      the decoded sample, and a sample that decodes to nothing scores 0. */
  lemma ScoreRange(codecs: Codecs, encoding: string, sample: seq<Byte>)
    ensures var decoded := codecs.decodeIgnoring(encoding, sample);
      && 0.0 <= Score(codecs, encoding, sample) <= 1.0 + LogFeatureBonus
      && (Score(codecs, encoding, sample) > 1.0 ==> exists i :: 0 <= i < |Prefixes| && Contains(decoded, Prefixes[i]))
      && (decoded == [] ==> Score(codecs, encoding, sample) == 0.0)
  {
    var decoded := codecs.decodeIgnoring(encoding, sample);
    if decoded != [] {
      RatioAtMostOne(PrintableCount(codecs, decoded) as real, |decoded| as real);
    }
    if HasLogFeature(decoded) {
      var i := MatchingPrefix(decoded, Prefixes).value;
      FindIsFirst(decoded, Prefixes[i]);
    }
  }

  lemma RatioAtMostOne(n: real, d: real)
    requires 0.0 <= n <= d && d > 0.0
    ensures 0.0 <= n / d <= 1.0
  {
    assert n / d * d == n;
  }

  /** The score of each of `names`, in order. */
  function ScoresOf(score: string -> real, names: seq<string>): (s: seq<real>)
    ensures |s| == |names|
    ensures forall k :: 0 <= k < |names| ==> s[k] == score(names[k])
  {
    seq(|names|, k requires 0 <= k < |names| => score(names[k]))
  }

  /** The score of each candidate of the backup list. */
  function CandidateScores(codecs: Codecs, sample: seq<Byte>): (s: seq<real>)
    ensures |s| == |BackupEncodings|
  {
    ScoresOf(Scorer(codecs, sample), BackupEncodings)
  }

  /** `Score` on the sample, as a function of the candidate. */
  function Scorer(codecs: Codecs, sample: seq<Byte>): string -> real {
    e => Score(codecs, e, sample)
  }

  /** The candidate `select_best_encoding` returns when its stop poll first reads the flag set
      before candidate `stopAt` (a value at or past the number of candidates: never). */
  function Selection(codecs: Codecs, sample: seq<Byte>, stopAt: nat): string {
    var scored := CandidateScores(codecs, sample)[..Min(stopAt, |BackupEncodings|)];
    match Leader(scored)
    case None => "utf-8"
    case Some(i) => BackupEncodings[i]
  }

  /** The selection is UTF-8 when no candidate scored above 0 before the stop; otherwise it is
      the earliest candidate with the highest score among those scored. */
  lemma SelectionIsFirstBest(codecs: Codecs, sample: seq<Byte>, stopAt: nat)
    ensures var m := Min(stopAt, |BackupEncodings|);
      var scores := CandidateScores(codecs, sample);
      || ((forall j :: 0 <= j < m ==> scores[j] <= 0.0) && Selection(codecs, sample, stopAt) == "utf-8")
      || exists i :: 0 <= i < m && Selection(codecs, sample, stopAt) == BackupEncodings[i] && scores[i] > 0.0 &&
           (forall j :: 0 <= j < m ==> scores[j] <= scores[i]) &&
           (forall j :: 0 <= j < i ==> scores[j] < scores[i])
  {
    var m := Min(stopAt, |BackupEncodings|);
    var scores := CandidateScores(codecs, sample);
    var scored := scores[..m];
    NoLeaderIffNonePositive(scored);
    LeaderIsMaximal(scored);
    LeaderIsEarliest(scored);
    match Leader(scored)
    case None =>
      assert forall j :: 0 <= j < m ==> scores[j] == scored[j];
    case Some(i) =>
      assert forall j :: 0 <= j < m ==> scores[j] == scored[j];
  }

  /** The candidate loop of `select_best_encoding` (lines 162-199): each candidate is preceded
      by a stop poll, and a candidate replaces the best so far only with a strictly higher
      score than the best so far, which starts at 0 with UTF-8. */
  method SelectBestEncoding(codecs: Codecs, sample: seq<Byte>, stopAt: nat) returns (encoding: string, polls: nat)
    ensures encoding == Selection(codecs, sample, stopAt)
    ensures polls == Min(|BackupEncodings|, stopAt + 1)
  {
    encoding, polls := ScanCandidates(Scorer(codecs, sample), BackupEncodings, stopAt);
  }

  /** The loop of `select_best_encoding` over the candidates `names`, each scored by `score`. */
  method ScanCandidates(score: string -> real, names: seq<string>, stopAt: nat) returns (encoding: string, polls: nat)
    ensures var scored := ScoresOf(score, names)[..Min(stopAt, |names|)];
      encoding == match Leader(scored) case None => "utf-8" case Some(i) => names[i]
    ensures polls == Min(|names|, stopAt + 1)
  {
    ghost var scores := ScoresOf(score, names);
    ghost var leader: Option<nat> := None;
    var best := "utf-8";
    var bestScore := 0.0;
    var k := 0;
    while k < |names|
      invariant k <= |names| && k <= stopAt
      invariant leader == Leader(scores[..k])
      invariant leader.None? ==> best == "utf-8"
      invariant leader.Some? ==> leader.value < |names| && best == names[leader.value]
      invariant bestScore == BestValue(scores[..k])
    {
      if k >= stopAt {
        return best, k + 1;
      }
      var s := score(names[k]);
      assert scores[..k + 1] == scores[..k] + [s];
      ScanStep(scores[..k], s);
      if s > bestScore {
        bestScore := s;
        best := names[k];
        leader := Some(k);
      }
      k := k + 1;
    }
    return best, k;
  }

  /** What `detect_encoding` decides, with the number of stop polls it spent: a byte-order
      mark wins; otherwise the detector's answer on the first 50000 bytes, normalised, unless
      its confidence is below 0.8, when the best-scoring candidate is chosen instead. */
  function Detection(codecs: Codecs, bytes: seq<Byte>, stopAt: nat): (r: (string, nat))
    ensures r.1 <= |BackupEncodings|
  {
    var header := bytes[..Min(HeaderSize, |bytes|)];
    var sample := bytes[..Min(SampleSize, |bytes|)];
    match BomEncoding(header)
    case Some(e) => (e, 0)
    case None =>
      match codecs.detect(sample)
      case Unreadable => ("utf-8", 0)
      case Guess(name, confidence) =>
        if confidence < MinConfidence then (Selection(codecs, sample, stopAt), Min(|BackupEncodings|, stopAt + 1))
        else (Normalized(name), 0)
  }

  /** `detect_encoding` (lines 117-160). */
  method DetectEncoding(codecs: Codecs, bytes: seq<Byte>, stopAt: nat) returns (encoding: string, polls: nat)
    ensures encoding == Detection(codecs, bytes, stopAt).0
    ensures polls == Detection(codecs, bytes, stopAt).1
  {
    var header := bytes[..Min(HeaderSize, |bytes|)];
    var bom := BomEncoding(header);
    if bom.Some? {
      return bom.value, 0;
    }
    var sample := bytes[..Min(SampleSize, |bytes|)];
    var guess := codecs.detect(sample);
    if guess.Unreadable? {
      return "utf-8", 0;
    }
    if guess.confidence < MinConfidence {
      encoding, polls := SelectBestEncoding(codecs, sample, stopAt);
    } else {
      encoding, polls := Normalized(guess.encoding), 0;
    }
  }

  /** A confident detector answer of ASCII, in any letter case, becomes UTF-8, and an answer
      with no name becomes UTF-8; other confident answers are kept as named. */
  lemma ConfidentGuessNormalised(codecs: Codecs, bytes: seq<Byte>, stopAt: nat)
    requires BomEncoding(bytes[..Min(HeaderSize, |bytes|)]).None?
    requires codecs.detect(bytes[..Min(SampleSize, |bytes|)]).Guess?
    requires codecs.detect(bytes[..Min(SampleSize, |bytes|)]).confidence >= MinConfidence
    ensures var name := codecs.detect(bytes[..Min(SampleSize, |bytes|)]).encoding;
      && (name.None? ==> Detection(codecs, bytes, stopAt).0 == "utf-8")
      && (name.Some? && LowerEquals(name.value, "ascii") ==> Detection(codecs, bytes, stopAt).0 == "utf-8")
      && (name.Some? && name.value != [] && !LowerEquals(name.value, "ascii") ==> Detection(codecs, bytes, stopAt).0 == name.value)
      && Detection(codecs, bytes, stopAt).1 == 0
  {
  }

  /** Every encoding detection can yield is non-empty, and when the candidate search ran it
      is one of the candidates. */
  lemma DetectionIsCandidateWhenUnsure(codecs: Codecs, bytes: seq<Byte>, stopAt: nat)
    requires BomEncoding(bytes[..Min(HeaderSize, |bytes|)]).None?
    requires codecs.detect(bytes[..Min(SampleSize, |bytes|)]).Guess?
    requires codecs.detect(bytes[..Min(SampleSize, |bytes|)]).confidence < MinConfidence
    ensures Detection(codecs, bytes, stopAt).0 in BackupEncodings
  {
    var sample := bytes[..Min(SampleSize, |bytes|)];
    SelectionIsFirstBest(codecs, sample, stopAt);
    assert BackupEncodings[0] == "utf-8";
  }
}
