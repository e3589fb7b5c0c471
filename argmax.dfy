/** The selection rule shared by `select_best_encoding` and `try_backup_encodings`: walk the
    candidates in order, keep a best value that starts at 0, and replace it only when a
    candidate is STRICTLY greater. The winner is therefore the earliest candidate reaching the
    largest value, and there is no winner when no value exceeds 0. */
module ArgMax {
  import opened Common

  /** The index the left-to-right scan with a strict `>` ends with, if any. */
  function Leader(xs: seq<real>): (r: Option<nat>)
    ensures r.Some? ==> r.value < |xs| && xs[r.value] > 0.0
  {
    if xs == [] then None
    else
      var last := xs[|xs| - 1];
      match Leader(xs[..|xs| - 1])
      case None => if last > 0.0 then Some(|xs| - 1) else None
      case Some(i) => if last > xs[i] then Some(|xs| - 1) else Some(i)
  }

  /** The best value the scan holds at the end (its starting value 0 when nothing won). */
  function BestValue(xs: seq<real>): real {
    match Leader(xs)
    case None => 0.0
    case Some(i) => xs[i]
  }

  /** The leader is at least as large as every candidate. */
  lemma {:induction false} LeaderIsMaximal(xs: seq<real>)
    ensures forall j :: 0 <= j < |xs| ==> xs[j] <= BestValue(xs)
    ensures BestValue(xs) >= 0.0
  {
    if xs != [] {
      var init := xs[..|xs| - 1];
      LeaderIsMaximal(init);
      assert forall j :: 0 <= j < |init| ==> xs[j] == init[j];
    }
  }

  /** The leader is strictly greater than every candidate before it: ties keep the earliest. */
  lemma {:induction false} LeaderIsEarliest(xs: seq<real>)
    ensures Leader(xs).Some? ==> forall j :: 0 <= j < Leader(xs).value ==> xs[j] < xs[Leader(xs).value]
  {
    if xs != [] {
      var init := xs[..|xs| - 1];
      LeaderIsEarliest(init);
      LeaderIsMaximal(init);
      assert forall j :: 0 <= j < |init| ==> xs[j] == init[j];
    }
  }

  /** There is no leader exactly when no candidate is above 0. */
  lemma {:induction false} NoLeaderIffNonePositive(xs: seq<real>)
    ensures Leader(xs).None? <==> forall j :: 0 <= j < |xs| ==> xs[j] <= 0.0
  {
    if xs != [] {
      var init := xs[..|xs| - 1];
      NoLeaderIffNonePositive(init);
      assert forall j :: 0 <= j < |init| ==> xs[j] == init[j];
    }
  }

  /** Extending the candidates by one value: the step the scanning loops take. */
  lemma LeaderSnoc(xs: seq<real>, x: real)
    ensures Leader(xs + [x]) ==
      match Leader(xs)
      case None => if x > 0.0 then Some(|xs|) else None
      case Some(i) => if x > xs[i] then Some(|xs|) else Some(i)
  {
    var ys := xs + [x];
    assert ys[..|ys| - 1] == xs;
    assert ys[|ys| - 1] == x;
    match Leader(xs)
    case None =>
    case Some(i) => assert ys[i] == xs[i];
  }

  /** The same step as the loops test it: a new value wins exactly when it is above the best
      value so far, and then becomes the best value. */
  lemma ScanStep(xs: seq<real>, x: real)
    ensures Leader(xs + [x]) == if x > BestValue(xs) then Some(|xs|) else Leader(xs)
    ensures BestValue(xs + [x]) == if x > BestValue(xs) then x else BestValue(xs)
  {
    LeaderSnoc(xs, x);
    var ys := xs + [x];
    assert ys[|xs|] == x;
    match Leader(xs)
    case None =>
    case Some(i) => assert ys[i] == xs[i];
  }
}
