/** The shot table of a film: tiling, declared boundaries, duplicate pictures. Seconds are exact numbers here. */
module ShotStructure {
  import opened Outcomes

  const MINIMUM_SHOT_SECONDS: real := 0.05

  datatype Shot = Shot(index: nat, start: real, seconds: real)

  function Midpoint(shot: Shot): real {
    shot.start + shot.seconds / 2.0
  }

  function Length(seconds: seq<real>): real {
    if seconds == [] then 0.0 else Length(seconds[..|seconds| - 1]) + seconds[|seconds| - 1]
  }

  ghost predicate LongEnough(seconds: seq<real>) {
    forall i :: 0 <= i < |seconds| ==> seconds[i] >= MINIMUM_SHOT_SECONDS
  }

  /** The shots lie end to end from zero, in order, with the given lengths. */
  ghost predicate Tiles(shots: seq<Shot>, seconds: seq<real>) {
    && |shots| == |seconds|
    && (forall i :: 0 <= i < |shots| ==> shots[i].index == i + 1 && shots[i].seconds == seconds[i])
    && (|shots| > 0 ==> shots[0].start == 0.0)
    && forall i :: 0 < i < |shots| ==> shots[i].start == shots[i - 1].start + shots[i - 1].seconds
  }

  method PlanShots(seconds: seq<real>) returns (r: Option<seq<Shot>>)
    ensures r.Some? <==> seconds != [] && LongEnough(seconds)
    ensures r.Some? ==> Tiles(r.value, seconds)
  {
    if seconds == [] {
      return None;
    }
    var shots: seq<Shot> := [];
    var start := 0.0;
    for i := 0 to |seconds|
      invariant LongEnough(seconds[..i]) && Tiles(shots, seconds[..i])
      invariant start == if i == 0 then 0.0 else shots[i - 1].start + shots[i - 1].seconds
    {
      if seconds[i] < MINIMUM_SHOT_SECONDS {
        return None;
      }
      shots := shots + [Shot(i + 1, start, seconds[i])];
      start := start + seconds[i];
    }
    assert seconds[..|seconds|] == seconds;
    r := Some(shots);
  }

  /** Each shot starts where all earlier ones together end, so the table covers the film without gap or overlap. */
  lemma {:induction false} TilesCoverTheFilm(shots: seq<Shot>, seconds: seq<real>, i: nat)
    requires Tiles(shots, seconds) && i < |shots|
    ensures shots[i].start == Length(seconds[..i])
    ensures shots[i].start + shots[i].seconds == Length(seconds[..i + 1])
  {
    assert seconds[..i + 1][..i] == seconds[..i];
    if i > 0 {
      TilesCoverTheFilm(shots, seconds, i - 1);
    }
  }

  /** Midpoints are strictly increasing, each strictly inside its own shot. */
  lemma {:induction false} MidpointsIncrease(shots: seq<Shot>, seconds: seq<real>, i: nat, j: nat)
    requires Tiles(shots, seconds) && LongEnough(seconds) && i < j < |shots|
    ensures shots[i].start < Midpoint(shots[i]) < shots[i].start + shots[i].seconds <= shots[j].start
    ensures Midpoint(shots[i]) < Midpoint(shots[j])
  {
    assert shots[i].seconds == seconds[i] && shots[j].seconds == seconds[j];
    if i + 1 < j {
      MidpointsIncrease(shots, seconds, i, j - 1);
    }
  }

  // ----- declared boundaries -----

  function Sum(frames: seq<int>): int {
    if frames == [] then 0 else Sum(frames[..|frames| - 1]) + frames[|frames| - 1]
  }

  lemma SumNext(frames: seq<int>, i: nat)
    requires i < |frames|
    ensures Sum(frames[..i + 1]) == Sum(frames[..i]) + frames[i]
  {
    assert frames[..i + 1][..i] == frames[..i];
  }

  function Magnitude(x: int): nat {
    if x < 0 then -x else x
  }

  /** How far the boundary after the first `n` shots is from where it was declared. */
  function Drift(declared: seq<int>, rendered: seq<int>, n: nat): nat
    requires n <= |declared| && n <= |rendered|
  {
    Magnitude(Sum(declared[..n]) - Sum(rendered[..n]))
  }

  ghost predicate Shaped(declared: seq<int>, rendered: seq<int>, framesPerSecond: int, tolerance: int) {
    && declared != [] && |declared| == |rendered| && framesPerSecond > 0 && tolerance >= 0
    && (forall i :: 0 <= i < |declared| ==> declared[i] > 0)
    && (forall i :: 0 <= i < |rendered| ==> rendered[i] > 0)
  }

  ghost predicate WithinTolerance(declared: seq<int>, rendered: seq<int>, tolerance: int)
    requires |declared| == |rendered|
  {
    forall n :: 0 <= n <= |declared| ==> Drift(declared, rendered, n) <= tolerance
  }

  /** Every rendered shot lasts at least the twentieth of a second below which it is none. */
  ghost predicate NoTinyShot(rendered: seq<int>, framesPerSecond: int) {
    forall i :: 0 <= i < |rendered| ==> 20 * rendered[i] >= framesPerSecond
  }

  function InSeconds(frames: seq<int>, framesPerSecond: int): (r: seq<real>)
    requires framesPerSecond > 0
    ensures |r| == |frames|
    ensures forall i :: 0 <= i < |r| ==> r[i] == frames[i] as real / framesPerSecond as real
  {
    seq(|frames|, i requires 0 <= i < |frames| => frames[i] as real / framesPerSecond as real)
  }

  /** The returned table is the rendered one; it is accepted exactly when every boundary is within tolerance. */
  method RequireDeclaredShotBoundaries(
      declared: seq<int>, rendered: seq<int>, framesPerSecond: int, tolerance: int)
    returns (r: Option<seq<Shot>>)
    ensures r.Some? <==>
              && Shaped(declared, rendered, framesPerSecond, tolerance)
              && WithinTolerance(declared, rendered, tolerance)
              && NoTinyShot(rendered, framesPerSecond)
    ensures r.Some? ==> Tiles(r.value, InSeconds(rendered, framesPerSecond))
  {
    if declared == [] || |declared| != |rendered| || framesPerSecond <= 0 || tolerance < 0
    || (exists i :: 0 <= i < |declared| && declared[i] <= 0) || (exists i :: 0 <= i < |rendered| && rendered[i] <= 0) {
      return None;
    }
    var declaredStart, renderedStart := 0, 0;
    assert declared[..0] == [] && rendered[..0] == [];
    for i := 0 to |declared|
      invariant declaredStart == Sum(declared[..i]) && renderedStart == Sum(rendered[..i])
      invariant forall n :: 0 <= n <= i && (n < i || i > 0) ==> Drift(declared, rendered, n) <= tolerance
    {
      assert Drift(declared, rendered, i) == Magnitude(declaredStart - renderedStart);
      if Magnitude(declaredStart - renderedStart) > tolerance {
        return None;
      }
      SumNext(declared, i);
      SumNext(rendered, i);
      declaredStart := declaredStart + declared[i];
      renderedStart := renderedStart + rendered[i];
      if Magnitude(declaredStart - renderedStart) > tolerance {
        assert Drift(declared, rendered, i + 1) > tolerance;
        return None;
      }
      assert Drift(declared, rendered, i) <= tolerance && Drift(declared, rendered, i + 1) <= tolerance;
    }
    LongEnoughInFrames(rendered, framesPerSecond);
    r := PlanShots(InSeconds(rendered, framesPerSecond));
  }

  lemma LongEnoughInFrames(frames: seq<int>, framesPerSecond: int)
    requires framesPerSecond > 0
    ensures LongEnough(InSeconds(frames, framesPerSecond)) <==> NoTinyShot(frames, framesPerSecond)
  {
  }

  /**
    Comparing boundaries and not lengths bounds everything: over the whole film the drift is within tolerance, and
    one shot's own length can be off by twice the tolerance at most.
   */
  lemma DriftBounds(declared: seq<int>, rendered: seq<int>, tolerance: int, i: nat)
    requires |declared| == |rendered| && WithinTolerance(declared, rendered, tolerance) && i < |declared|
    ensures Magnitude(Sum(declared) - Sum(rendered)) <= tolerance
    ensures Magnitude(declared[i] - rendered[i]) <= 2 * tolerance
  {
    assert declared[..|declared|] == declared && rendered[..|rendered|] == rendered;
    assert Drift(declared, rendered, |declared|) <= tolerance;
    SumNext(declared, i);
    SumNext(rendered, i);
    assert Drift(declared, rendered, i) <= tolerance && Drift(declared, rendered, i + 1) <= tolerance;
  }

  /** Whether the comparisons of the shots from `i` on all pass, with those of the starts or without them. */
  predicate ComparisonsPass(
      declared: seq<int>, rendered: seq<int>, tolerance: int, starts: bool, declaredStart: int, renderedStart: int,
      i: nat)
    requires |declared| == |rendered| && i <= |declared|
    decreases |declared| - i
  {
    i == |declared| ||
    var declaredEnd, renderedEnd := declaredStart + declared[i], renderedStart + rendered[i];
    && (starts ==> Magnitude(declaredStart - renderedStart) <= tolerance)
    && Magnitude(declaredEnd - renderedEnd) <= tolerance
    && ComparisonsPass(declared, rendered, tolerance, starts, declaredEnd, renderedEnd, i + 1)
  }

  lemma {:induction false} ComparisonsMean(
      declared: seq<int>, rendered: seq<int>, tolerance: int, starts: bool, i: nat)
    requires |declared| == |rendered| && i <= |declared| && Drift(declared, rendered, i) <= tolerance
    ensures ComparisonsPass(declared, rendered, tolerance, starts, Sum(declared[..i]), Sum(rendered[..i]), i) <==>
            forall n :: i < n <= |declared| ==> Drift(declared, rendered, n) <= tolerance
    decreases |declared| - i
  {
    if i < |declared| {
      SumNext(declared, i);
      SumNext(rendered, i);
      if Drift(declared, rendered, i + 1) <= tolerance {
        ComparisonsMean(declared, rendered, tolerance, starts, i + 1);
      }
    }
  }

  /**
    The comparisons of the starts never reject anything: with them and without them the comparisons accept the same
    tables, those within tolerance at every boundary.
   */
  lemma StartCheckRepeatsEndCheck(declared: seq<int>, rendered: seq<int>, tolerance: int, starts: bool)
    requires |declared| == |rendered| && tolerance >= 0
    ensures ComparisonsPass(declared, rendered, tolerance, starts, 0, 0, 0) <==>
            WithinTolerance(declared, rendered, tolerance)
  {
    assert declared[..0] == [] && rendered[..0] == [];
    assert Drift(declared, rendered, 0) == 0;
    ComparisonsMean(declared, rendered, tolerance, starts, 0);
  }

  /** Both bounds are reached, at every tolerance: a shot may be longer by the tolerance, the next shorter by twice. */
  lemma DriftBoundsAreReached(tolerance: nat, frames: nat)
    requires frames > 2 * tolerance
    ensures var declared, rendered := [frames, frames], [frames + tolerance, frames - 2 * tolerance];
            && WithinTolerance(declared, rendered, tolerance)
            && Magnitude(declared[1] - rendered[1]) == 2 * tolerance
            && Magnitude(Sum(declared) - Sum(rendered)) == tolerance
  {
    var declared, rendered := [frames, frames], [frames + tolerance, frames - 2 * tolerance];
    SumOfTwo(frames, frames);
    SumOfTwo(frames + tolerance, frames - 2 * tolerance);
    forall n | 0 <= n <= 2 ensures Drift(declared, rendered, n) <= tolerance {
      if n == 1 {
        assert declared[..1] == [frames] && rendered[..1] == [frames + tolerance];
      } else if n == 2 {
        assert declared[..2] == declared && rendered[..2] == rendered;
      }
    }
  }

  lemma SumOfTwo(a: int, b: int)
    ensures Sum([a]) == a && Sum([a, b]) == a + b
  {
  }

  function Equal(frames: int, n: nat): (r: seq<int>)
    ensures |r| == n && forall i :: 0 <= i < n ==> r[i] == frames
  {
    seq(n, _ => frames)
  }

  /** Checking lengths alone would not do: shots within tolerance each can end arbitrarily far from the declaration. */
  lemma LengthsAloneAreNotEnough(tolerance: nat, frames: nat, n: nat)
    ensures var declared, rendered := Equal(frames, n), Equal(frames + tolerance, n);
            && (forall i :: 0 <= i < n ==> Magnitude(declared[i] - rendered[i]) <= tolerance)
            && Magnitude(Sum(declared) - Sum(rendered)) == n * tolerance
  {
    SumOfEqual(frames, n);
    SumOfEqual(frames + tolerance, n);
    Distributes(n, frames, tolerance);
  }

  lemma Distributes(n: nat, a: nat, b: nat)
    ensures n * (a + b) == n * a + n * b && n * b >= 0
  {
  }

  lemma {:induction false} SumOfEqual(frames: int, n: nat)
    ensures Sum(Equal(frames, n)) == n * frames
  {
    if n > 0 {
      SumOfEqual(frames, n - 1);
      assert Equal(frames, n)[..n - 1] == Equal(frames, n - 1);
    }
  }

  // ----- duplicate pictures -----

  ghost predicate AllDifferent(digests: seq<string>) {
    forall i, j :: 0 <= i < j < |digests| ==> digests[i] != digests[j]
  }

  /** Accepted exactly when every shot was sampled and no two samples are the same picture. */
  method RefuseDuplicateShots(shots: seq<Shot>, digests: seq<string>) returns (ok: bool)
    ensures ok <==> |digests| == |shots| && AllDifferent(digests)
  {
    if |digests| != |shots| {
      return false;
    }
    var seen: map<string, Shot> := map[];
    for i := 0 to |shots|
      invariant forall d :: d in seen <==> exists k :: 0 <= k < i && digests[k] == d
      invariant AllDifferent(digests[..i])
    {
      if digests[i] in seen {
        return false;
      }
      seen := seen[digests[i] := shots[i]];
    }
    assert digests[..|digests|] == digests;
    ok := true;
  }
}
