/** The chat-line test that `LogProcessor.process_log` (lines 253-261) and
    `try_backup_encodings` (lines 344-350) each write out inline, and the record a chat line
    yields. */
module ChatLine {
  import opened Common
  import opened Text

  /** The thread and level tag both prefixes start with. */
  const ThreadTag: string := "[Server thread/INFO] "

  /** The log prefixes, in the order they are tried. */
  const Prefixes: seq<string> := [
    ThreadTag + "[net.minecraft.server.MinecraftServer/]:",
    ThreadTag + "[Console/]:"
  ]

  /** The index of the first prefix, in list order, that occurs in `line`. */
  function MatchingPrefix(line: string, ps: seq<string>): (r: Option<nat>)
    ensures r.Some? ==> r.value < |ps| && Find(line, ps[r.value]).Some?
  {
    if ps == [] then None
    else if Find(line, ps[0]).Some? then Some(0)
    else match MatchingPrefix(line, ps[1..])
      case None => None
      case Some(i) => Some(i + 1)
  }

  /** `MatchingPrefix` returns the first prefix of the list found in the line. */
  lemma {:induction false} MatchingPrefixIsFirst(line: string, ps: seq<string>)
    ensures MatchingPrefix(line, ps).Some? ==>
      forall j :: 0 <= j < MatchingPrefix(line, ps).value ==> Find(line, ps[j]).None?
    ensures MatchingPrefix(line, ps).None? ==> forall j :: 0 <= j < |ps| ==> Find(line, ps[j]).None?
  {
    if ps != [] && Find(line, ps[0]).None? {
      MatchingPrefixIsFirst(line, ps[1..]);
    }
  }

  /** `content.startswith("<") or content.startswith("[")`: a chat message or a bracketed tag. */
  predicate OpensChat(content: string) {
    |content| > 0 && (content[0] == '<' || content[0] == '[')
  }

  /** The test against a prefix list `ps` (the extractor uses `Prefixes`): the first prefix
      found in the line decides, and the stripped text after its first occurrence must start
      with `<` or `[`. */
  predicate IsChatLine(line: string, ps: seq<string>) {
    match MatchingPrefix(line, ps)
    case None => false
    case Some(i) => OpensChat(Strip(After(line, ps[i])))
  }

  /** What one line contributes to the records: the stripped line when it is a chat line. */
  function RecordOf(line: string, ps: seq<string>): (r: seq<string>)
    ensures forall x :: x in r <==> IsChatLine(line, ps) && x == Strip(line)
    ensures |r| <= 1
  {
    if IsChatLine(line, ps) then [Strip(line)] else []
  }

  /** The record function of the extractor, over its own prefixes. */
  function ChatRecord(line: string): seq<string> {
    RecordOf(line, Prefixes)
  }

  /** Prefix `ps[i]` first occurs in `line` at index `k`, and no earlier prefix of the list
      occurs in `line` at all: the occurrence the extractor splits the line at. */
  ghost predicate DecidingOccurrence(line: string, ps: seq<string>, i: int, k: nat) {
    && 0 <= i < |ps|
    && OccursAt(line, ps[i], k)
    && (forall j :: 0 <= j < i ==> !Contains(line, ps[j]))
    && (forall m: nat :: m < k ==> !OccursAt(line, ps[i], m))
  }

  /** The deciding occurrence is unique, and it is the one the extractor finds. */
  lemma DecidingOccurrenceIsFound(line: string, ps: seq<string>, i: int, k: nat)
    requires DecidingOccurrence(line, ps, i, k)
    ensures MatchingPrefix(line, ps) == Some(i)
    ensures Find(line, ps[i]) == Some(k)
    ensures After(line, ps[i]) == line[k + |ps[i]|..]
  {
    assert Contains(line, ps[i]);
    FindIsFirst(line, ps[i]);
    MatchingPrefixIsFirst(line, ps);
    var m := MatchingPrefix(line, ps);
    if m.Some? && m.value < i {
      FindIsFirst(line, ps[m.value]);
      assert Contains(line, ps[m.value]);
    }
  }

  /** A line is a chat line exactly when some prefix occurs in it, no earlier prefix in the
      list does, and the stripped text after that prefix's FIRST occurrence starts with `<` or
      `[`. A later prefix is never consulted once an earlier one occurs, whatever follows it. */
  lemma ChatLineIff(line: string, ps: seq<string>)
    ensures IsChatLine(line, ps) <==>
      exists i, k: nat :: DecidingOccurrence(line, ps, i, k) && OpensChat(Strip(line[k + |ps[i]|..]))
  {
    MatchingPrefixIsFirst(line, ps);
    match MatchingPrefix(line, ps)
    case None =>
      forall i, k: nat | DecidingOccurrence(line, ps, i, k)
        ensures false
      {
        DecidingOccurrenceIsFound(line, ps, i, k);
      }
    case Some(i) =>
      var k := Find(line, ps[i]).value;
      FindIsFirst(line, ps[i]);
      forall j | 0 <= j < i ensures !Contains(line, ps[j]) {
        FindIsFirst(line, ps[j]);
      }
      assert DecidingOccurrence(line, ps, i, k);
      forall i', k': nat | DecidingOccurrence(line, ps, i', k')
        ensures i' == i && k' == k
      {
        DecidingOccurrenceIsFound(line, ps, i', k');
      }
  }

  /** In a line made of an eleven-character timestamp, the first prefix and a message, the
      extractor splits at that prefix and looks at the message. */
  lemma TimestampedLine(post: string)
    ensures var line := "[12:00:00] " + Prefixes[0] + post;
      MatchingPrefix(line, Prefixes) == Some(0) && After(line, Prefixes[0]) == post
  {
    var p := Prefixes[0];
    var line := "[12:00:00] " + p + post;
    assert p[0] == '[' && p[1] == 'S';
    assert line[11..11 + |p|] == p;
    assert line[11 + |p|..] == post;
    forall j: nat | j < 11 ensures !OccursAt(line, p, j) {
      var d := if j == 0 then 1 else 0;
      assert line[j + d] != p[d];
    }
    assert DecidingOccurrence(line, Prefixes, 0, 11);
    DecidingOccurrenceIsFound(line, Prefixes, 0, 11);
  }

  /** A public chat message is kept, whole. */
  lemma ExampleChatMessage()
    ensures var line := "[12:00:00] " + Prefixes[0] + " <Alice> hello";
      ChatRecord(line) == [line]
  {
    var post := " <Alice> hello";
    var line := "[12:00:00] " + Prefixes[0] + post;
    TimestampedLine(post);
    assert LeadingSpaces(post) == 1;
    var t := post[1..];
    assert TrimmedEnd(t) == |t|;
    assert Strip(post) == t;
    assert IsChatLine(line, Prefixes);
    StripUnchanged(line);
  }

  /** A server message under the same prefix that does not open with `<` or `[` is dropped. */
  lemma ExampleServerMessage()
    ensures var line := "[12:00:00] " + Prefixes[0] + " Stopping server";
      ChatRecord(line) == []
  {
    var post := " Stopping server";
    var line := "[12:00:00] " + Prefixes[0] + post;
    TimestampedLine(post);
    assert LeadingSpaces(post) == 1;
    var t := post[1..];
    assert TrimmedEnd(t) == |t|;
    assert Strip(post) == t;
    assert !IsChatLine(line, Prefixes);
  }
}
