/** The selection logic of scripts/prepare-assets.mjs: which background
    PNG frames ship as the fallback slideshow, and which source files the
    report lists as rejected. File names are strings; the directory
    listing, copying and report writing are not modelled. */
module PrepareAssets {
  import opened Common

  // ---------------------------------------------------------------------------
  // Rounding

  /** `Math.round((i * lastIndex) / (targetCount - 1))` in integers: for a
      non-negative quotient, rounding half up is the floor of the quotient
      plus one half, i.e. `(2 i L + (t - 1)) / (2 (t - 1))`. */
  function RoundedIndex(i: nat, lastIndex: nat, t: nat): (r: nat)
    requires 2 <= t && i < t
    ensures r <= lastIndex
  {
    var n := 2 * i * lastIndex + (t - 1);
    var d := 2 * (t - 1);
    DividendBelow(i, lastIndex, t);
    DivBelow(n, d, lastIndex + 1);
    n / d
  }

  /** `2 i L + (t - 1) < (L + 1) 2 (t - 1)` for `i <= t - 1`. */
  lemma DividendBelow(i: nat, lastIndex: nat, t: nat)
    requires 2 <= t && i < t
    ensures 2 * i * lastIndex + (t - 1) < (lastIndex + 1) * (2 * (t - 1))
  {
    var m := t - 1;
    MulLe(i, m, 2 * lastIndex);
    assert 2 * i * lastIndex == i * (2 * lastIndex);
    assert (lastIndex + 1) * (2 * m) == m * (2 * lastIndex) + 2 * m;
  }

  /** `a * x <= b * x` for `a <= b` and non-negative `x`. */
  lemma MulLe(a: int, b: int, x: int)
    requires a <= b && 0 <= x
    ensures a * x <= b * x
  {
    var k := b - a;
    assert b * x == a * x + k * x;
  }

  /** A quotient is at least `k` when `k d` fits into the dividend. */
  lemma DivAtLeast(n: int, d: int, k: int)
    requires 0 < d && k * d <= n
    ensures k <= n / d
  {
    var p := n / d;
    assert n == p * d + n % d && n % d < d;
    if p < k {
      assert (p + 1) * d == p * d + d;
      MulLe(p + 1, k, d);
    }
  }

  /** A quotient is below `b` when the dividend is below `b d`. */
  lemma DivBelow(n: int, d: int, b: int)
    requires 0 < d && n < b * d
    ensures n / d < b
  {
    var p := n / d;
    assert n == p * d + n % d && 0 <= n % d;
    if p >= b {
      MulLe(b, p, d);
    }
  }

  /** The Euclidean quotient is the one `q` with `q d <= n < (q + 1) d`. */
  lemma DivIs(n: int, d: int, q: int)
    requires 0 < d && q * d <= n < (q + 1) * d
    ensures n / d == q
  {
    DivAtLeast(n, d, q);
    DivBelow(n, d, q + 1);
  }

  /** The first index is 0 and the last is `lastIndex`: the pick starts with
      the first item and ends with the last. */
  lemma RoundedIndexEnds(lastIndex: nat, t: nat)
    requires 2 <= t
    ensures RoundedIndex(0, lastIndex, t) == 0
    ensures RoundedIndex(t - 1, lastIndex, t) == lastIndex
  {
    var d := 2 * (t - 1);
    DivIs(t - 1, d, 0);
    assert 2 * (t - 1) * lastIndex + (t - 1) == lastIndex * d + (t - 1);
    DivIs(lastIndex * d + (t - 1), d, lastIndex);
  }

  /** When there are more items than picks (`lastIndex >= t - 1`) the step
      `lastIndex / (t - 1)` is at least one, so consecutive indices differ
      by at least one. */
  lemma RoundedIndexStep(i: nat, lastIndex: nat, t: nat)
    requires 2 <= t && i + 1 < t && t - 1 <= lastIndex
    ensures RoundedIndex(i, lastIndex, t) < RoundedIndex(i + 1, lastIndex, t)
  {
    var d := 2 * (t - 1);
    var n := 2 * i * lastIndex + (t - 1);
    var q := n / d;
    assert q * d <= n by {
      assert n == q * d + n % d && 0 <= n % d;
    }
    assert 2 * (i + 1) * lastIndex + (t - 1) == n + 2 * lastIndex;
    assert (q + 1) * d == q * d + d;
    DivAtLeast(n + 2 * lastIndex, d, q + 1);
  }

  /** Indices increase strictly along the picks. */
  lemma {:induction false} RoundedIndexIncreasing(i: nat, j: nat, lastIndex: nat, t: nat)
    requires 2 <= t && i < j < t && t - 1 <= lastIndex
    ensures RoundedIndex(i, lastIndex, t) < RoundedIndex(j, lastIndex, t)
    decreases j - i
  {
    RoundedIndexStep(i, lastIndex, t);
    if i + 1 < j {
      RoundedIndexIncreasing(i + 1, j, lastIndex, t);
    }
  }

  /** The integer formula is JavaScript's rounding of the exact quotient:
      the greatest integer not above `i * lastIndex / (t - 1) + 1/2`. */
  lemma RoundedIndexRounds(i: nat, lastIndex: nat, t: nat)
    requires 2 <= t && i < t
    ensures RoundedIndex(i, lastIndex, t) == ((i * lastIndex) as real / (t - 1) as real + 0.5).Floor
  {
    var n := 2 * i * lastIndex + (t - 1);
    var d := 2 * (t - 1);
    var q := n / d;
    assert q * d <= n < (q + 1) * d by {
      assert n == q * d + n % d && 0 <= n % d < d;
      assert (q + 1) * d == q * d + d;
    }
    var a, m := (i * lastIndex) as real, (t - 1) as real;
    HalfUp(a, m);
    assert n as real == 2.0 * a + m && d as real == 2.0 * m;
    RealQuotient(q, n, d);
    FloorIs(a / m + 0.5, q);
  }

  /** `a / m + 1/2 == (2 a + m) / (2 m)`. */
  lemma HalfUp(a: real, m: real)
    requires 0.0 < m
    ensures a / m + 0.5 == (2.0 * a + m) / (2.0 * m)
  {
    assert m / (2.0 * m) == 0.5 by {
      assert 0.5 * (2.0 * m) == m;
    }
    assert (2.0 * a) / (2.0 * m) == a / m by {
      assert (2.0 * a) / (2.0 * m) == ((2.0 * a) / 2.0) / m;
    }
    assert (2.0 * a + m) / (2.0 * m) == (2.0 * a) / (2.0 * m) + m / (2.0 * m);
  }

  /** Integer bounds on a quotient carry over to the exact quotient. */
  lemma RealQuotient(q: int, n: int, d: int)
    requires 0 < d && q * d <= n < (q + 1) * d
    ensures q as real <= n as real / d as real < (q + 1) as real
  {
    var y := n as real / d as real;
    assert y * d as real == n as real;
    assert (q * d) as real == q as real * d as real;
    assert ((q + 1) * d) as real == (q + 1) as real * d as real;
  }

  /** The floor of `x` is the one integer `q` with `q <= x < q + 1`. */
  lemma FloorIs(x: real, q: int)
    requires q as real <= x < (q + 1) as real
    ensures x.Floor == q
  {
  }

  // ---------------------------------------------------------------------------
  // pickEvenlySpaced

  /** `[...new Set(picks)]`: each value once, at the place it first occurs. */
  function Dedup<T(==,!new)>(s: seq<T>): (r: seq<T>)
    ensures NoDup(r)
    ensures forall x :: x in r <==> x in s
    ensures |r| <= |s|
  {
    if s == [] then []
    else
      var init := s[..|s| - 1];
      var last := s[|s| - 1];
      var d := Dedup(init);
      assert forall x :: x in s <==> x in init || x == last by {
        assert s == init + [last];
      }
      if last in init then d else d + [last]
  }

  /** The set keeps the first value first. */
  lemma {:induction false} DedupFirst<T(!new)>(s: seq<T>)
    requires s != []
    ensures Dedup(s) != [] && Dedup(s)[0] == s[0]
  {
    var init := s[..|s| - 1];
    if init != [] {
      DedupFirst(init);
      assert init[0] == s[0];
    }
  }

  /** Values that are already distinct pass through unchanged, in order. */
  lemma {:induction false} DedupDistinct<T(!new)>(s: seq<T>)
    requires NoDup(s)
    ensures Dedup(s) == s
  {
    if s != [] {
      var init := s[..|s| - 1];
      assert NoDup(init) by {
        forall i, j | 0 <= i < j < |init| ensures init[i] != init[j] {
          assert init[i] == s[i] && init[j] == s[j];
        }
      }
      DedupDistinct(init);
      assert s[|s| - 1] !in init by {
        forall k | 0 <= k < |init| ensures init[k] != s[|s| - 1] {
          assert init[k] == s[k];
        }
      }
      assert s == init + [s[|s| - 1]];
    }
  }

  /** The first `n` picks of the loop: item `RoundedIndex(i)` for `i < n`. */
  function Picks<T>(s: seq<T>, t: nat, n: nat): seq<T>
    requires 2 <= t < |s| && n <= t
  {
    seq(n, i requires 0 <= i < n => s[RoundedIndex(i, |s| - 1, t)])
  }

  /** What `pickEvenlySpaced(sortedItems, targetCount)` returns. */
  function EvenlySpaced<T(==,!new)>(s: seq<T>, t: nat): seq<T> {
    if |s| <= t then s
    else if t <= 1 then [s[0]]
    else Dedup(Picks(s, t, t))
  }

  /** The loop of `pickEvenlySpaced`, then the set that drops repeats. */
  method PickEvenlySpaced<T(==,!new)>(sortedItems: seq<T>, targetCount: nat) returns (r: seq<T>)
    ensures r == EvenlySpaced(sortedItems, targetCount)
    ensures |sortedItems| <= targetCount ==> r == sortedItems
    ensures targetCount <= 1 < |sortedItems| ==> r == [sortedItems[0]]
  {
    if |sortedItems| <= targetCount {
      return sortedItems;
    }
    if targetCount <= 1 {
      return [sortedItems[0]];
    }
    var lastIndex := |sortedItems| - 1;
    var picks: seq<T> := [];
    for i := 0 to targetCount
      invariant picks == Picks(sortedItems, targetCount, i)
    {
      var idx := RoundedIndex(i, lastIndex, targetCount);
      picks := picks + [sortedItems[idx]];
    }
    r := Dedup(picks);
  }

  /** Whatever the input, the result holds input items only, each once
      unless the input is returned as is, never more than the input has,
      and it starts with the first item. */
  lemma EvenlySpacedShape<T(!new)>(s: seq<T>, t: nat)
    ensures var r := EvenlySpaced(s, t);
      && (forall x :: x in r ==> x in s)
      && |r| <= |s|
      && (|s| > t ==> NoDup(r) && 1 <= |r| && |r| <= t + 1 && (t >= 1 ==> |r| <= t))
      && (s != [] ==> r != [] && r[0] == s[0])
  {
    if |s| > t && t >= 2 {
      var p := Picks(s, t, t);
      RoundedIndexEnds(|s| - 1, t);
      assert p[0] == s[0];
      DedupFirst(p);
    }
  }

  /** The picked indices increase strictly. */
  ghost predicate Increasing(lastIndex: nat, t: nat)
    requires 2 <= t
  {
    forall i, j :: 0 <= i < j < t ==> RoundedIndex(i, lastIndex, t) < RoundedIndex(j, lastIndex, t)
  }

  /** With more (distinct) items than requested and at least two requested,
      exactly `targetCount` items come back: the `i`-th is item
      `RoundedIndex(i)`, these indices increase strictly (so the input order
      is kept), and the last item is the input's last. */
  lemma EvenlySpacedExact<T(!new)>(s: seq<T>, t: nat)
    requires NoDup(s) && 2 <= t < |s|
    ensures var r := EvenlySpaced(s, t);
      && |r| == t
      && (forall i :: 0 <= i < t ==> r[i] == s[RoundedIndex(i, |s| - 1, t)])
      && Increasing(|s| - 1, t)
      && r[0] == s[0] && r[t - 1] == s[|s| - 1]
  {
    var p := Picks(s, t, t);
    PicksDistinct(s, t);
    DedupDistinct(p);
    RoundedIndexEnds(|s| - 1, t);
  }

  /** The indices increase, so distinct items give distinct picks. */
  lemma PicksDistinct<T(!new)>(s: seq<T>, t: nat)
    requires NoDup(s) && 2 <= t < |s|
    ensures Increasing(|s| - 1, t)
    ensures NoDup(Picks(s, t, t))
  {
    var p := Picks(s, t, t);
    var l := |s| - 1;
    forall i, j | 0 <= i < j < t ensures RoundedIndex(i, l, t) < RoundedIndex(j, l, t) {
      RoundedIndexIncreasing(i, j, l, t);
    }
    forall i, j | 0 <= i < j < t ensures p[i] != p[j] {
      assert RoundedIndex(i, l, t) < RoundedIndex(j, l, t);
    }
  }

  // ---------------------------------------------------------------------------
  // The fallback frames and the rejected lists

  /** `clamp(12, 8, 16)`. */
  const DesiredPngFallbackCount := Clamp(12, 8, 16)

  /** Fewer than 8 candidates ship as they are; otherwise up to 12 are
      picked evenly spaced. */
  function SelectFallbackPngs(pngCandidates: seq<string>): seq<string> {
    if |pngCandidates| >= 8 then
      EvenlySpaced(pngCandidates, Min(DesiredPngFallbackCount, |pngCandidates|))
    else pngCandidates
  }

  /** With distinct (listed, therefore distinct) names: fewer than 8 ship
      all, up to 12 ship all, beyond 12 exactly 12 ship, always distinct
      names taken from the candidates, the first and last candidate among
      them. */
  lemma FallbackSelection(pngCandidates: seq<string>)
    requires NoDup(pngCandidates)
    ensures var r := SelectFallbackPngs(pngCandidates);
      && |r| == (if |pngCandidates| > 12 then 12 else |pngCandidates|)
      && NoDup(r)
      && (forall x :: x in r ==> x in pngCandidates)
      && (pngCandidates != [] ==> r[0] == pngCandidates[0] && r[|r| - 1] == pngCandidates[|pngCandidates| - 1])
  {
    assert DesiredPngFallbackCount == 12;
    if |pngCandidates| > 12 {
      EvenlySpacedExact(pngCandidates, 12);
    }
  }

  /** A line of the report's rejected list. */
  datatype Rejection = Rejection(source: string, reason: string)

  const RawReason := "Not required by shipped game loop; excluded to keep payload smaller."
  const PngReason := "Not selected in curated evenly-spaced fallback frame subset."
  const BackgroundsDir := "assets_backgrounds/"

  /** One report line per source, in order, all with the same reason. */
  function Rejections(sources: seq<string>, reason: string): seq<Rejection> {
    seq(|sources|, k requires 0 <= k < |sources| => Rejection(sources[k], reason))
  }

  /** The sources named in a list of rejections. */
  function Sources(r: seq<Rejection>): seq<string> {
    seq(|r|, k requires 0 <= k < |r| => r[k].source)
  }

  /** The report names each rejected source once, in the order given, and
      every line carries the one reason: reading the sources back gives the
      list the lines were made from. */
  lemma RejectionsRoundTrip(sources: seq<string>, reason: string)
    ensures Sources(Rejections(sources, reason)) == sources
    ensures forall line :: line in Rejections(sources, reason) ==> line.reason == reason && line.source in sources
  {
    var r := Rejections(sources, reason);
    forall line | line in r ensures line.reason == reason && line.source in sources {
      var k :| 0 <= k < |r| && r[k] == line;
      assert line.source == sources[k];
    }
  }

  /** `rejectedRawAssets`: the raw files (as paths relative to the project
      root) that no shipped asset was copied from. */
  function RejectedRawAssets(rawFiles: seq<string>, chosenAssetSourceSet: set<string>): seq<Rejection> {
    Rejections(Exclude(rawFiles, chosenAssetSourceSet), RawReason)
  }

  /** `rejectedBackgroundPng`: the candidate frames not selected, with their directory. */
  function RejectedBackgroundPng(pngCandidates: seq<string>, selected: seq<string>): seq<Rejection> {
    var names := Exclude(pngCandidates, set x | x in selected);
    Rejections(seq(|names|, k requires 0 <= k < |names| => BackgroundsDir + names[k]), PngReason)
  }

  /** The rejected raw list names exactly the raw files outside the chosen
      set, in listing order, each with the payload reason. */
  lemma RejectedRawExact(rawFiles: seq<string>, chosen: set<string>)
    ensures var r := RejectedRawAssets(rawFiles, chosen);
      && (forall p :: p in Sources(r) <==> p in rawFiles && p !in chosen)
      && (forall k :: 0 <= k < |r| ==> r[k].reason == RawReason)
      && Sources(r) == Exclude(rawFiles, chosen)
  {
    var r := RejectedRawAssets(rawFiles, chosen);
    assert Sources(r) == Exclude(rawFiles, chosen);
  }

  /** The shipped and the rejected frames split the candidates: every
      candidate is in exactly one of them, and nothing else is in either. */
  lemma FallbackPartition(pngCandidates: seq<string>)
    ensures var selected := SelectFallbackPngs(pngCandidates);
      var rejected := Exclude(pngCandidates, set x | x in selected);
      && (forall x :: x in pngCandidates ==> (x in selected <==> x !in rejected))
      && (forall x :: x in selected ==> x in pngCandidates)
      && (forall x :: x in rejected ==> x in pngCandidates)
  {
    EvenlySpacedShape(pngCandidates, Min(DesiredPngFallbackCount, |pngCandidates|));
  }

  /** With distinct names the shipped and rejected counts add up to the
      number of candidates. */
  lemma FallbackCount(pngCandidates: seq<string>)
    requires NoDup(pngCandidates)
    ensures var selected := SelectFallbackPngs(pngCandidates);
      |selected| + |Exclude(pngCandidates, set x | x in selected)| == |pngCandidates|
  {
    var selected := SelectFallbackPngs(pngCandidates);
    var rejected := Exclude(pngCandidates, set x | x in selected);
    FallbackPartition(pngCandidates);
    FallbackSelection(pngCandidates);
    ExcludeNoDup(pngCandidates, set x | x in selected);
    SplitCount(pngCandidates, selected, rejected);
  }

  /** Two lists without repetitions that split a third one between them
      have as many elements together as it has. */
  lemma SplitCount<T>(c: seq<T>, a: seq<T>, b: seq<T>)
    requires NoDup(c) && NoDup(a) && NoDup(b)
    requires forall x :: x in c <==> x in a || x in b
    requires forall x :: x in a ==> x !in b
    ensures |a| + |b| == |c|
  {
    NoDupCard(c);
    NoDupCard(a);
    NoDupCard(b);
    var sc, sa, sb := set x | x in c, set x | x in a, set x | x in b;
    assert sc == sa + sb;
    assert sa * sb == {};
  }

  /** The report lines for rejected frames carry the directory prefix and
      the selection reason. */
  lemma RejectedPngLines(pngCandidates: seq<string>, selected: seq<string>)
    ensures var r := RejectedBackgroundPng(pngCandidates, selected);
      var names := Exclude(pngCandidates, set x | x in selected);
      && |r| == |names|
      && forall k :: 0 <= k < |r| ==>
           && r[k] == Rejection(BackgroundsDir + names[k], PngReason)
           && names[k] in pngCandidates && names[k] !in selected
  {
    var names := Exclude(pngCandidates, set x | x in selected);
    assert forall k :: 0 <= k < |names| ==> names[k] in names;
  }
}
