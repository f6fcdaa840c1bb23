// Pacing of an Ogg file: each page's duration is the difference of two granule positions,
// cut to whole milliseconds and then counted in nanoseconds by an int64.
module OggPacing {
  import opened Base

  // The granule position before page n: lastGranule starts at 0.
  function Before(granules: seq<u64>, n: nat): u64
    requires n <= |granules|
  {
    if n == 0 then 0 else granules[n - 1]
  }

  // uint64 subtraction.
  function Samples(last: u64, granule: u64): u64 {
    (granule - last) % TWO_64
  }

  // time.Duration((sampleCount/48000)*1000), the float64 taken as an exact quotient.
  function Millis(samples: u64): nat {
    samples * 1000 / 48000
  }

  const MILLISECOND: int := 1_000_000

  // ... * time.Millisecond: an int64 product.
  function Duration(samples: u64): i64 {
    WrapI64(Millis(samples) * MILLISECOND)
  }

  // The most milliseconds an int64 of nanoseconds can hold.
  const MAX_MILLIS: int := 9223372036854

  function TotalSamples(granules: seq<u64>): nat {
    if granules == [] then 0
    else
      var n := |granules| - 1;
      TotalSamples(granules[..n]) + Samples(Before(granules, n), granules[n])
  }

  function TotalMillis(granules: seq<u64>): nat {
    if granules == [] then 0
    else
      var n := |granules| - 1;
      TotalMillis(granules[..n]) + Millis(Samples(Before(granules, n), granules[n]))
  }

  // What the track is told in all, in nanoseconds.
  function TotalDuration(granules: seq<u64>): int {
    if granules == [] then 0
    else
      var n := |granules| - 1;
      TotalDuration(granules[..n]) + Duration(Samples(Before(granules, n), granules[n]))
  }

  // No page is too long for its duration.
  ghost predicate ShortPages(granules: seq<u64>) {
    forall n: nat :: n < |granules| ==> Millis(Samples(Before(granules, n), granules[n])) <= MAX_MILLIS
  }

  // Pages whose granule position went backwards.
  function Descents(granules: seq<u64>): nat {
    if granules == [] then 0
    else
      var n := |granules| - 1;
      Descents(granules[..n]) + if granules[n] < Before(granules, n) then 1 else 0
  }

  ghost predicate Nondecreasing(granules: seq<u64>) {
    forall n: nat :: n < |granules| ==> Before(granules, n) <= granules[n]
  }

  // The page sample counts telescope to the last granule, plus 2^64 for every step backwards.
  lemma {:induction false} SamplesTelescope(granules: seq<u64>)
    ensures TotalSamples(granules) == Before(granules, |granules|) + TWO_64 * Descents(granules)
  {
    if granules == [] {
    } else {
      var n := |granules| - 1;
      SamplesTelescope(granules[..n]);
      assert Before(granules[..n], n) == Before(granules, n);
    }
  }

  lemma {:induction false} NoDescents(granules: seq<u64>)
    ensures Descents(granules) == 0 <==> Nondecreasing(granules)
  {
    if granules == [] {
    } else {
      var n := |granules| - 1;
      var front := granules[..n];
      NoDescents(front);
      assert forall k: nat :: k < n ==> Before(front, k) == Before(granules, k) && front[k] == granules[k];
      if Nondecreasing(granules) {
        assert Before(granules, n) <= granules[n];
      }
    }
  }

  // They telescope to the last granule G exactly when the positions never decrease.
  lemma TelescopesIffNondecreasing(granules: seq<u64>)
    ensures TotalSamples(granules) == Before(granules, |granules|) <==> Nondecreasing(granules)
  {
    SamplesTelescope(granules);
    NoDescents(granules);
  }

  // Cutting to milliseconds loses less than one millisecond (48 samples) a page, never gains.
  lemma {:induction false} MillisTrackSamples(granules: seq<u64>)
    ensures 48 * TotalMillis(granules) <= TotalSamples(granules) <= 48 * TotalMillis(granules) + 47 * |granules|
  {
    if granules == [] {
    } else {
      var n := |granules| - 1;
      MillisTrackSamples(granules[..n]);
      var c: int := Samples(Before(granules, n), granules[n]);
      assert c * 1000 / 48000 == c / 48;
    }
  }

  // The duration of a page is its milliseconds exactly when they fit; otherwise it falls short
  // by at least 2^64 nanoseconds.
  lemma DurationExactIffShort(samples: u64)
    ensures Duration(samples) == Millis(samples) * MILLISECOND <==> Millis(samples) <= MAX_MILLIS
    ensures Duration(samples) != Millis(samples) * MILLISECOND ==> Duration(samples) + TWO_64 <= Millis(samples) * MILLISECOND
  {
    var x, y := Millis(samples) * MILLISECOND + 0x8000_0000_0000_0000, TWO_64;
    assert Duration(samples) == x - x / y * y - 0x8000_0000_0000_0000;
  }

  // The smallest page whose duration is wrong is given a negative one. So is a page ending at
  // granule 2^64 - 1, which in Ogg says that no packet ends there, when it comes first.
  lemma LongPageHasNegativeDuration()
    ensures Millis(442721857769040) == MAX_MILLIS + 1 && Duration(442721857769040) < 0
    ensures TotalDuration([TWO_64 - 1]) != TotalMillis([TWO_64 - 1]) * MILLISECOND
  {
    var g: seq<u64> := [TWO_64 - 1];
    assert g[..0] == [] && Samples(Before(g, 0), g[0]) == TWO_64 - 1;
    DurationExactIffShort(TWO_64 - 1);
  }

  lemma ShortPagesButLast(granules: seq<u64>)
    requires granules != []
    ensures var n := |granules| - 1;
      ShortPages(granules) <==> ShortPages(granules[..n]) && Millis(Samples(Before(granules, n), granules[n])) <= MAX_MILLIS
  {
    var n := |granules| - 1;
    var front := granules[..n];
    assert forall k: nat :: k < n ==> Before(front, k) == Before(granules, k) && front[k] == granules[k];
    if ShortPages(granules) {
      assert forall k: nat :: k < n ==> Millis(Samples(Before(granules, k), granules[k])) <= MAX_MILLIS;
    }
  }

  // All the durations together are the milliseconds together if and only if every page is
  // short; otherwise they fall short by at least 2^64 nanoseconds, for nothing makes up for it.
  lemma {:induction false} TotalExactIffShort(granules: seq<u64>)
    ensures TotalDuration(granules) == TotalMillis(granules) * MILLISECOND <==> ShortPages(granules)
    ensures !ShortPages(granules) ==> TotalDuration(granules) + TWO_64 <= TotalMillis(granules) * MILLISECOND
  {
    if granules == [] {
    } else {
      var n := |granules| - 1;
      TotalExactIffShort(granules[..n]);
      ShortPagesButLast(granules);
      DurationExactIffShort(Samples(Before(granules, n), granules[n]));
    }
  }

  // The drift after n pages ending at G is bounded, G/48 - n < D <= G/48 in milliseconds, for
  // pages that are short; and (for fewer than 2^64 / 10^6 pages) for no others.
  lemma DriftIsBoundedIffShort(granules: seq<u64>)
    requires granules != [] && Nondecreasing(granules)
    ensures var g, d, n := granules[|granules| - 1], TotalDuration(granules), |granules|;
      && (ShortPages(granules) ==> 48 * d <= g * MILLISECOND < 48 * (d + n * MILLISECOND))
      && (n * MILLISECOND <= TWO_64 && !ShortPages(granules) ==> g * MILLISECOND >= 48 * (d + n * MILLISECOND))
  {
    TelescopesIffNondecreasing(granules);
    MillisTrackSamples(granules);
    TotalExactIffShort(granules);
  }

  function Sum(durations: seq<i64>): int {
    if durations == [] then 0 else Sum(durations[..|durations| - 1]) + durations[|durations| - 1]
  }

  // Durations[n] is that of page n.
  ghost predicate PagesTimed(granules: seq<u64>, durations: seq<i64>) {
    |durations| == |granules| &&
    forall n: nat :: n < |granules| ==> durations[n] == Duration(Samples(Before(granules, n), granules[n]))
  }

  // The durations handed out one by one are the total that the drift is about.
  lemma {:induction false} DurationsAddUp(granules: seq<u64>, durations: seq<i64>)
    requires PagesTimed(granules, durations)
    ensures Sum(durations) == TotalDuration(granules)
  {
    if granules == [] {
    } else {
      var n := |granules| - 1;
      assert forall k: nat :: k < n ==> Before(granules[..n], k) == Before(granules, k) && granules[..n][k] == granules[k];
      DurationsAddUp(granules[..n], durations[..n]);
    }
  }

  lemma OnePageMore(granules: seq<u64>, n: nat, durations: seq<i64>)
    requires n < |granules| && PagesTimed(granules[..n], durations)
    ensures PagesTimed(granules[..n + 1], durations + [Duration(Samples(Before(granules, n), granules[n]))])
  {
    assert forall k: nat :: k <= n ==> Before(granules[..n + 1], k) == Before(granules, k) && granules[..n + 1][k] == granules[k];
    assert forall k: nat :: k < n ==> Before(granules[..n], k) == Before(granules, k) && granules[..n][k] == granules[k];
  }

  // The pacing loop: the durations given to the track, page by page.
  method Pace(granules: seq<u64>) returns (durations: seq<i64>)
    ensures PagesTimed(granules, durations) && Sum(durations) == TotalDuration(granules)
  {
    var lastGranule: u64 := 0;
    durations := [];
    for n := 0 to |granules|
      invariant lastGranule == Before(granules, n) && PagesTimed(granules[..n], durations)
    {
      var sampleCount := Samples(lastGranule, granules[n]);
      OnePageMore(granules, n, durations);
      lastGranule := granules[n];
      durations := durations + [Duration(sampleCount)];
    }
    assert granules[..|granules|] == granules;
    DurationsAddUp(granules, durations);
  }
}
