/** String operations the extractor relies on, written out as Python defines them:
    `p in s`, `s.split(p, 1)[1]`, `s.strip()`, `s.startswith`, `s.endswith` and the ASCII part of
    `s.lower()`. Strings are sequences of Unicode scalar values. */
module Text {
  import opened Common

  /** The characters Python's `str.isspace()` accepts, which `str.strip()` removes. */
  predicate IsSpace(c: char) {
    || c == ' '
    || ('\t' <= c <= '\r')
    || ('\U{1C}' <= c <= '\U{1F}')
    || c == '\U{85}' || c == '\U{A0}' || c == '\U{1680}'
    || ('\U{2000}' <= c <= '\U{200A}')
    || c == '\U{2028}' || c == '\U{2029}' || c == '\U{202F}' || c == '\U{205F}' || c == '\U{3000}'
  }

  /** Number of leading whitespace characters of `s`. */
  function LeadingSpaces(s: string): (n: nat)
    ensures n <= |s|
  {
    if s == [] || !IsSpace(s[0]) then 0 else 1 + LeadingSpaces(s[1..])
  }

  /** Length of `s` once its trailing whitespace is cut off. */
  function TrimmedEnd(s: string): (n: nat)
    ensures n <= |s|
  {
    if s == [] || !IsSpace(s[|s| - 1]) then |s| else TrimmedEnd(s[..|s| - 1])
  }

  /** Python's `s.strip()`: `s` without its leading and trailing whitespace. */
  function Strip(s: string): (r: string)
    ensures |r| <= |s|
  {
    var t := s[LeadingSpaces(s)..];
    t[..TrimmedEnd(t)]
  }

  lemma {:induction false} LeadingSpacesSpan(s: string)
    ensures forall k :: 0 <= k < LeadingSpaces(s) ==> IsSpace(s[k])
    ensures LeadingSpaces(s) < |s| ==> !IsSpace(s[LeadingSpaces(s)])
  {
    if s != [] && IsSpace(s[0]) {
      LeadingSpacesSpan(s[1..]);
    }
  }

  lemma {:induction false} TrimmedEndSpan(s: string)
    ensures forall k :: TrimmedEnd(s) <= k < |s| ==> IsSpace(s[k])
    ensures TrimmedEnd(s) > 0 ==> !IsSpace(s[TrimmedEnd(s) - 1])
  {
    if s != [] && IsSpace(s[|s| - 1]) {
      TrimmedEndSpan(s[..|s| - 1]);
    }
  }

  /** `strip()` keeps a contiguous middle part of `s` and removes only whitespace. */
  lemma StripKeepsMiddle(s: string)
    ensures var i := LeadingSpaces(s);
      && i + |Strip(s)| <= |s| && Strip(s) == s[i..i + |Strip(s)|]
      && (forall k :: 0 <= k < i ==> IsSpace(s[k]))
      && (forall k :: i + |Strip(s)| <= k < |s| ==> IsSpace(s[k]))
  {
    var i := LeadingSpaces(s);
    var t := s[i..];
    var n := TrimmedEnd(t);
    LeadingSpacesSpan(s);
    TrimmedEndSpan(t);
    assert t[..n] == s[i..i + n];
    forall k | i + n <= k < |s|
      ensures IsSpace(s[k])
    {
      assert s[k] == t[k - i];
    }
  }

  /** `strip()` leaves no whitespace at either end. */
  lemma StripEnds(s: string)
    ensures Strip(s) != [] ==> !IsSpace(Strip(s)[0]) && !IsSpace(Strip(s)[|Strip(s)| - 1])
  {
    var i := LeadingSpaces(s);
    var t := s[i..];
    var n := TrimmedEnd(t);
    if n > 0 {
      LeadingSpacesSpan(s);
      TrimmedEndSpan(t);
      assert Strip(s)[0] == s[i];
      assert Strip(s)[n - 1] == t[n - 1];
    }
  }

  /** A string without whitespace at its ends is left as it is. */
  lemma StripUnchanged(s: string)
    requires s != [] && !IsSpace(s[0]) && !IsSpace(s[|s| - 1])
    ensures Strip(s) == s
  {
    assert LeadingSpaces(s) == 0;
    assert s[0..] == s;
    assert TrimmedEnd(s) == |s|;
  }

  predicate StartsWith(s: string, p: string) {
    |p| <= |s| && s[..|p|] == p
  }

  predicate EndsWith(s: string, p: string) {
    |p| <= |s| && s[|s| - |p|..] == p
  }

  /** `p` occurs in `s` starting at index `k`. */
  predicate OccursAt(s: string, p: string, k: nat) {
    k + |p| <= |s| && s[k..k + |p|] == p
  }

  /** Python's `p in s`, stated without reference to any search procedure. */
  ghost predicate Contains(s: string, p: string) {
    exists k: nat :: OccursAt(s, p, k)
  }

  /** The first index at or after `from` where `p` occurs in `s`. */
  function FindFrom(s: string, p: string, from: nat): (r: Option<nat>)
    decreases |s| - from
    ensures r.Some? ==> from <= r.value && OccursAt(s, p, r.value)
  {
    if from + |p| > |s| then None
    else if s[from..from + |p|] == p then Some(from)
    else FindFrom(s, p, from + 1)
  }

  /** `FindFrom` skips no occurrence. */
  lemma {:induction false} FindFromIsFirst(s: string, p: string, from: nat)
    decreases |s| - from
    ensures FindFrom(s, p, from).Some? ==> forall j: nat :: from <= j < FindFrom(s, p, from).value ==> !OccursAt(s, p, j)
    ensures FindFrom(s, p, from).None? ==> forall j: nat :: from <= j ==> !OccursAt(s, p, j)
  {
    if from + |p| <= |s| && s[from..from + |p|] != p {
      FindFromIsFirst(s, p, from + 1);
    }
  }

  /** Python's `s.find(p)`, `None` standing for -1. */
  function Find(s: string, p: string): (r: Option<nat>)
    ensures r.Some? ==> OccursAt(s, p, r.value)
  {
    FindFrom(s, p, 0)
  }

  /** `find` succeeds exactly on `p in s`, and returns the first occurrence. */
  lemma FindIsFirst(s: string, p: string)
    ensures Find(s, p).Some? <==> Contains(s, p)
    ensures Find(s, p).Some? ==> forall j: nat :: j < Find(s, p).value ==> !OccursAt(s, p, j)
  {
    FindFromIsFirst(s, p, 0);
  }

  /** Python's `s.split(p, 1)[1]` for a `p` that occurs in `s`: the text after its first occurrence. */
  function After(s: string, p: string): (r: string)
    requires Find(s, p).Some?
    ensures |r| + |p| <= |s|
  {
    s[Find(s, p).value + |p|..]
  }

  function LowerAscii(c: char): (l: char)
    ensures 'A' <= c <= 'Z' ==> l as int == c as int + 32
    ensures !('A' <= c <= 'Z') ==> l == c
  {
    if 'A' <= c <= 'Z' then (c as int + 32) as char else c
  }

  /** `s.lower() == t` for the lower-case ASCII names compared in this model ("ascii"): no
      character other than an ASCII capital lower-cases to one of their letters, so comparing
      letter by letter is exact for them. */
  predicate LowerEquals(s: string, t: string) {
    |s| == |t| && forall k :: 0 <= k < |s| ==> LowerAscii(s[k]) == t[k]
  }
}
