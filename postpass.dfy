/** The order-preserving duplicate removal `deduplicate_records` applies to the records of each
    tree id: a record is kept the first time it is seen and dropped every later time. */
module PostPass {

  /** No element of `s` occurs twice. */
  predicate NoRepeats<T(==)>(s: seq<T>) {
    forall i, j :: 0 <= i < j < |s| ==> s[i] != s[j]
  }

  /** The distinct elements of `s`. */
  ghost function Elements<T>(s: seq<T>): set<T> {
    set x | x in s
  }

  /** `s` with every occurrence of an element after its first removed. */
  function Dedup<T(==)>(s: seq<T>): seq<T> {
    if s == [] then []
    else
      var init := s[..|s| - 1];
      Dedup(init) + (if s[|s| - 1] in init then [] else [s[|s| - 1]])
  }

  /** The positions `Dedup` keeps, in increasing order. */
  function Firsts<T(==)>(s: seq<T>): seq<nat> {
    if s == [] then []
    else
      var init := s[..|s| - 1];
      Firsts(init) + (if s[|s| - 1] in init then [] else [|s| - 1])
  }

  /** The deduplicated list of `records` (lines 1298-1304): a `seen` set and a list built in
      one pass. */
  method DedupRecords<T(==)>(records: seq<T>) returns (deduped: seq<T>)
    ensures deduped == Dedup(records)
  {
    var seen: set<T> := {};
    deduped := [];
    for i := 0 to |records|
      invariant deduped == Dedup(records[..i])
      invariant forall x :: x in seen <==> x in records[..i]
    {
      assert records[..i + 1][..i] == records[..i];
      if records[i] !in seen {
        seen := seen + {records[i]};
        deduped := deduped + [records[i]];
      }
    }
    assert records[..|records|] == records;
  }

  /** Deduplication loses no element and adds none. */
  lemma {:induction false} DedupSameElements<T>(s: seq<T>)
    ensures forall x :: x in Dedup(s) <==> x in s
  {
    if s != [] {
      var init := s[..|s| - 1];
      DedupSameElements(init);
      assert s == init + [s[|s| - 1]];
    }
  }

  /** No element is left twice. */
  lemma {:induction false} DedupNoRepeats<T>(s: seq<T>)
    ensures NoRepeats(Dedup(s))
  {
    if s != [] {
      var init := s[..|s| - 1];
      DedupNoRepeats(init);
      DedupSameElements(init);
    }
  }

  /** `Dedup(s)` is the subsequence of `s` at the positions `Firsts(s)`: increasing positions,
      each holding the first occurrence of its element, and every first occurrence among them. */
  lemma {:induction false} DedupKeepsFirstOccurrences<T>(s: seq<T>)
    ensures |Firsts(s)| == |Dedup(s)|
    ensures forall k :: 0 <= k < |Firsts(s)| ==> Firsts(s)[k] < |s| && Dedup(s)[k] == s[Firsts(s)[k]]
    ensures forall k, l :: 0 <= k < l < |Firsts(s)| ==> Firsts(s)[k] < Firsts(s)[l]
    ensures forall i :: 0 <= i < |s| ==> (i in Firsts(s) <==> s[i] !in s[..i])
  {
    if s != [] {
      var init := s[..|s| - 1];
      DedupKeepsFirstOccurrences(init);
      forall i | 0 <= i < |s|
        ensures i in Firsts(s) <==> s[i] !in s[..i]
      {
        if i < |init| {
          assert s[..i] == init[..i];
        } else {
          assert s[..i] == init;
        }
      }
    }
  }

  /** A list without repeats is left as it is. */
  lemma {:induction false} DedupOfNoRepeats<T>(s: seq<T>)
    requires NoRepeats(s)
    ensures Dedup(s) == s
  {
    if s != [] {
      var init := s[..|s| - 1];
      assert NoRepeats(init);
      DedupOfNoRepeats(init);
      assert s[|s| - 1] !in init;
      assert s == init + [s[|s| - 1]];
    }
  }

  /** Deduplicating twice is deduplicating once. */
  lemma DedupIdempotent<T>(s: seq<T>)
    ensures Dedup(Dedup(s)) == Dedup(s)
  {
    DedupNoRepeats(s);
    DedupOfNoRepeats(Dedup(s));
  }

  /** A list without repeats has as many distinct elements as it is long. */
  lemma {:induction false} NoRepeatsCount<T>(s: seq<T>)
    requires NoRepeats(s)
    ensures |Elements(s)| == |s|
  {
    if s != [] {
      var init := s[..|s| - 1];
      assert NoRepeats(init);
      NoRepeatsCount(init);
      assert s == init + [s[|s| - 1]];
      assert Elements(s) == Elements(init) + {s[|s| - 1]};
    }
  }

  /** Deduplication keeps one record per distinct record, so the number it removes is the
      length of the list less its number of distinct records. */
  lemma DedupRemovedCount<T>(s: seq<T>)
    ensures |Dedup(s)| == |Elements(s)| <= |s|
  {
    DedupNoRepeats(s);
    NoRepeatsCount(Dedup(s));
    DedupSameElements(s);
    assert Elements(Dedup(s)) == Elements(s);
    DedupKeepsFirstOccurrences(s);
    FirstsBound(s);
  }

  lemma {:induction false} FirstsBound<T>(s: seq<T>)
    ensures |Firsts(s)| <= |s|
  {
    if s != [] {
      FirstsBound(s[..|s| - 1]);
    }
  }
}
