/** The rules of the rhythm round of "The Full Weasel" (src/App.jsx), as
    values and pure functions: what an item is, when the beat spawner emits
    which items, which items the expiry pass keeps, which item a tap
    resolves and what it scores. The stateful game in module App is
    specified in terms of these. Time is integer milliseconds. */
module GameRules {
  import opened Common

  datatype Phase = Launch | Rhythm | PopOff | Victory

  datatype Lane = Left | Center | Right

  datatype Kind = Good | Hazard

  /** Good items are cheese (left lane) or tea (right lane); hazards carry no subtype. */
  datatype Subtype = Cheese | Tea | NoSubtype

  /** How a rhythm action was produced: a tap or a swipe up. */
  datatype Source = Tap | Swipe

  /** A falling item. Its position on screen is a function of `spawnMs` and the clock. */
  datatype Item = Item(id: int, kind: Kind, subtype: Subtype, lane: Lane,
                       spawnMs: int, resolved: bool, resolvedAt: Option<int>)

  /** A short-lived decoration (a perfect pop or a sparkle): its id and creation time. */
  datatype Flash = Flash(id: int, spawnedAt: int)

  const BeatMs := 650
  const FallMs := 2500
  const HitWindowMs := 430
  const PerfectWindowMs := 140
  const HitReactionMs := 260
  const PopoffTargetTaps := 16
  /** The clock interval advances the clock by 33 ms every 33 ms. */
  const TickMs := 33
  /** `progress > 1.08` with `progress = (clock - spawnMs) / FallMs`. */
  const MissAfterMs := 2700
  /** `progress < 1.28`. */
  const ResolvedGraceMs := 3200
  const PerfectPopLifeMs := 360
  const SparkleLifeMs := 900
  const MeterMax := 100
  const HazardPenalty := 7
  const HazardAward := 5
  const PerfectAward := 12
  const GoodAward := 9
  /** A touch that ends more than 45 px above where it started is a swipe up. */
  const SwipeMinPx: real := 45.0

  const SuccessLines: seq<string> := ["Birthday legend!", "Party animal!", "Hot stuff!"]
  const HazardLines: seq<string> :=
    ["We're gonna need a bigger cake.", "Wrong party, buddy.", "Shark dodged. Cake saved!"]
  const WelcomeText := "Welcome to The Full Weasel"
  const StartText := "Tap left and right on beat!"
  const MissedText := "Keep the groove going!"
  const NoHitText := "Feel the groove!"
  const PopOffText := "THIS IS THE BEST BIRTHDAY EVER!"
  const VictoryText := "HAPPY BIRTHDAY NANA CHEESE"

  // ---------------------------------------------------------------------------
  // Timing thresholds

  /** The fall progress the source computes in floating point; exact here. */
  function Progress(clock: int, spawnMs: int): real {
    (clock - spawnMs) as real / FallMs as real
  }

  /** The two progress thresholds of the expiry pass are exact integer comparisons. */
  lemma ProgressThresholds(clock: int, spawnMs: int)
    ensures Progress(clock, spawnMs) > 1.08 <==> clock - spawnMs > MissAfterMs
    ensures Progress(clock, spawnMs) < 1.28 <==> clock - spawnMs < ResolvedGraceMs
  {
  }

  // ---------------------------------------------------------------------------
  // Expiry pass

  /** An unresolved item that fell past the miss threshold. */
  predicate Expired(it: Item, clock: int) {
    !it.resolved && clock - it.spawnMs > MissAfterMs
  }

  /** The expiry pass keeps a resolved item during its grace window and an
      unresolved one until it is expired. */
  predicate Kept(it: Item, clock: int) {
    if it.resolved then clock - it.spawnMs < ResolvedGraceMs else clock - it.spawnMs <= MissAfterMs
  }

  /** Some item of this kind expired unresolved. */
  predicate AnyExpired(s: seq<Item>, clock: int, kind: Kind) {
    exists i :: 0 <= i < |s| && s[i].kind == kind && Expired(s[i], clock)
  }

  /** The list the expiry pass builds: the kept items, in their order. */
  function Culled(s: seq<Item>, clock: int): (r: seq<Item>)
    ensures |r| <= |s|
    ensures forall x :: x in r ==> x in s && Kept(x, clock)
  {
    if s == [] then []
    else
      var last := s[|s| - 1];
      Culled(s[..|s| - 1], clock) + (if Kept(last, clock) then [last] else [])
  }

  /** One more item of the scan: it is appended when kept and counts for
      its kind when expired. */
  lemma CullPrefixStep(s: seq<Item>, i: nat, clock: int)
    requires i < |s|
    ensures Culled(s[..i + 1], clock) == Culled(s[..i], clock) + (if Kept(s[i], clock) then [s[i]] else [])
    ensures AnyExpired(s[..i + 1], clock, Good) <==>
      AnyExpired(s[..i], clock, Good) || (s[i].kind == Good && Expired(s[i], clock))
    ensures AnyExpired(s[..i + 1], clock, Hazard) <==>
      AnyExpired(s[..i], clock, Hazard) || (s[i].kind == Hazard && Expired(s[i], clock))
  {
    var p := s[..i + 1];
    assert p[..i] == s[..i] && p[i] == s[i];
  }

  /** Every item the pass keeps is in the result, unchanged. */
  lemma {:induction false} CulledKeepsAll(s: seq<Item>, clock: int)
    ensures forall x :: x in s && Kept(x, clock) ==> x in Culled(s, clock)
  {
    if s != [] {
      var init := s[..|s| - 1];
      CulledKeepsAll(init, clock);
      assert s == init + [s[|s| - 1]];
    }
  }

  /** The pass distributes over concatenation: it keeps the relative order of survivors. */
  lemma {:induction false} CulledAppend(a: seq<Item>, b: seq<Item>, clock: int)
    ensures Culled(a + b, clock) == Culled(a, clock) + Culled(b, clock)
  {
    if b == [] {
      assert a + b == a;
    } else {
      var init := b[..|b| - 1];
      assert (a + b)[..|a + b| - 1] == a + init;
      assert (a + b)[|a + b| - 1] == b[|b| - 1];
      CulledAppend(a, init, clock);
    }
  }

  /** Item ids strictly increase along the list. */
  predicate IdsIncreasing(s: seq<Item>) {
    forall i, j :: 0 <= i < j < |s| ==> s[i].id < s[j].id
  }

  lemma {:induction false} CulledIdsIncreasing(s: seq<Item>, clock: int)
    requires IdsIncreasing(s)
    ensures IdsIncreasing(Culled(s, clock))
  {
    if s != [] {
      var init := s[..|s| - 1];
      var last := s[|s| - 1];
      CulledIdsIncreasing(init, clock);
      var c := Culled(init, clock);
      forall x | x in c ensures x.id < last.id {
        var k :| 0 <= k < |init| && init[k] == x;
        assert s[k] == x;
      }
    }
  }

  // ---------------------------------------------------------------------------
  // Beat spawner

  /** Even beats send cheese down the left lane, odd beats tea down the right. */
  function GoodLane(beat: nat): Lane {
    if beat % 2 == 0 then Left else Right
  }

  function GoodSubtype(lane: Lane): Subtype {
    if lane == Left then Cheese else Tea
  }

  /** The items one beat emits before the id factory numbers them (their ids
      are 0 here): a good item, and when `beat % 3 == 2` a hazard in the lane
      `hazardLane(beat)`, the random lane drawn for that beat. */
  function BeatPlan(beat: nat, hazardLane: nat -> Lane): seq<Item> {
    var lane := GoodLane(beat);
    var good := Item(0, Good, GoodSubtype(lane), lane, beat * BeatMs, false, None);
    if beat % 3 == 2 then
      [good, Item(0, Hazard, NoSubtype, hazardLane(beat), beat * BeatMs, false, None)]
    else
      [good]
  }

  /** The unnumbered items of beats `from .. until - 1`, in order. */
  function Plan(from: nat, until: nat, hazardLane: nat -> Lane): seq<Item>
    decreases until
  {
    if until <= from then [] else Plan(from, until - 1, hazardLane) + BeatPlan(until - 1, hazardLane)
  }

  /** The items with ids `lastId + 1, lastId + 2, ...` in order, as successive
      calls of the id factory hand them out when it last returned `lastId`. */
  function Numbered(s: seq<Item>, lastId: int): seq<Item> {
    seq(|s|, i requires 0 <= i < |s| => s[i].(id := lastId + 1 + i))
  }

  /** Numbering a concatenation numbers the second part where the first stops. */
  lemma NumberedAppend(a: seq<Item>, b: seq<Item>, lastId: int)
    ensures Numbered(a + b, lastId) == Numbered(a, lastId) + Numbered(b, lastId + |a|)
  {
    var l := Numbered(a + b, lastId);
    var r := Numbered(a, lastId) + Numbered(b, lastId + |a|);
    forall i | 0 <= i < |l| ensures l[i] == r[i] {
      if i < |a| {
        assert (a + b)[i] == a[i];
      } else {
        assert (a + b)[i] == b[i - |a|];
      }
    }
  }

  /** The items one beat emits, numbered after `lastId`. */
  function BeatItems(beat: nat, lastId: int, hazardLane: nat -> Lane): seq<Item> {
    Numbered(BeatPlan(beat, hazardLane), lastId)
  }

  /** The items beats `from .. until - 1` emit, in order, when the id factory last returned `lastId`. */
  function Spawned(from: nat, until: nat, lastId: int, hazardLane: nat -> Lane): seq<Item> {
    Numbered(Plan(from, until, hazardLane), lastId)
  }

  /** The last step of the spawner: beat `until - 1` follows the earlier beats,
      numbered where they stop. */
  lemma SpawnedStep(from: nat, until: nat, lastId: int, hazardLane: nat -> Lane)
    requires from < until
    ensures Spawned(from, until, lastId, hazardLane) ==
      Spawned(from, until - 1, lastId, hazardLane)
        + BeatItems(until - 1, lastId + |Spawned(from, until - 1, lastId, hazardLane)|, hazardLane)
  {
    NumberedAppend(Plan(from, until - 1, hazardLane), BeatPlan(until - 1, hazardLane), lastId);
  }

  /** The beat count after the spawner has caught up with `clock`: every beat
      whose time `beat * BeatMs` is at most the clock has been spawned. */
  function NextBeatCount(count: nat, clock: int): (r: nat)
    ensures count <= r && clock < r * BeatMs
    ensures r > count ==> (r - 1) * BeatMs <= clock
  {
    if clock < count * BeatMs then count else clock / BeatMs + 1
  }

  /** The contract of `NextBeatCount` leaves no choice: a cursor that has
      passed the clock and whose last step was not past it is that count. */
  lemma NextBeatCountUnique(count: nat, clock: int, b: nat)
    requires count <= b && clock < b * BeatMs
    requires b > count ==> (b - 1) * BeatMs <= clock
    ensures NextBeatCount(count, clock) == b
  {
    if b > count {
      assert count * BeatMs <= (b - 1) * BeatMs by { BeatTimeOrdered(count, b - 1); }
      assert clock / BeatMs == b - 1;
    }
  }

  /** The spawner hands out consecutive ids. */
  lemma SpawnedIds(from: nat, until: nat, lastId: int, hazardLane: nat -> Lane)
    ensures forall i :: 0 <= i < |Spawned(from, until, lastId, hazardLane)| ==>
      Spawned(from, until, lastId, hazardLane)[i].id == lastId + 1 + i
  {
  }

  /** What every spawned item looks like: it belongs to a beat in range, sits at
      that beat's time, is unresolved, and follows the lane rules. */
  predicate SpawnedFor(it: Item, from: nat, until: nat, hazardLane: nat -> Lane) {
    var beat := it.spawnMs / BeatMs;
    && it.spawnMs == beat * BeatMs && from <= beat < until
    && !it.resolved && it.resolvedAt == None
    && (it.kind == Good ==> it.lane == GoodLane(beat) && it.subtype == GoodSubtype(it.lane))
    && (it.kind == Hazard ==> beat % 3 == 2 && it.lane == hazardLane(beat) && it.subtype == NoSubtype)
  }

  lemma BeatPlanShape(beat: nat, hazardLane: nat -> Lane, from: nat, until: nat)
    requires from <= beat < until
    ensures forall i :: 0 <= i < |BeatPlan(beat, hazardLane)| ==>
      SpawnedFor(BeatPlan(beat, hazardLane)[i], from, until, hazardLane)
  {
    assert (beat * BeatMs) / BeatMs == beat;
  }

  lemma {:induction false} PlanShape(from: nat, until: nat, hazardLane: nat -> Lane)
    ensures forall i :: 0 <= i < |Plan(from, until, hazardLane)| ==>
      SpawnedFor(Plan(from, until, hazardLane)[i], from, until, hazardLane)
    decreases until
  {
    if from < until {
      var prev := Plan(from, until - 1, hazardLane);
      PlanShape(from, until - 1, hazardLane);
      var b := BeatPlan(until - 1, hazardLane);
      BeatPlanShape(until - 1, hazardLane, from, until);
      forall i | 0 <= i < |prev| + |b|
        ensures SpawnedFor((prev + b)[i], from, until, hazardLane)
      {
        if i < |prev| {
          assert (prev + b)[i] == prev[i];
        } else {
          assert (prev + b)[i] == b[i - |prev|];
        }
      }
    }
  }

  /** Every spawned item belongs to a beat of the range and follows the rules of its kind. */
  lemma SpawnedShape(from: nat, until: nat, lastId: int, hazardLane: nat -> Lane)
    ensures forall i :: 0 <= i < |Spawned(from, until, lastId, hazardLane)| ==>
      SpawnedFor(Spawned(from, until, lastId, hazardLane)[i], from, until, hazardLane)
  {
    PlanShape(from, until, hazardLane);
  }

  /** Distinct beats have distinct times, and later beats later times. */
  lemma BeatTimeOrdered(a: int, b: int)
    ensures a < b ==> a * BeatMs < b * BeatMs
    ensures a <= b ==> a * BeatMs <= b * BeatMs
  {
  }

  lemma {:induction false} PlanSplit(from: nat, mid: nat, until: nat, hazardLane: nat -> Lane)
    requires from <= mid <= until
    ensures Plan(from, until, hazardLane) == Plan(from, mid, hazardLane) + Plan(mid, until, hazardLane)
    decreases until
  {
    if until > mid {
      PlanSplit(from, mid, until - 1, hazardLane);
      var a := Plan(from, mid, hazardLane);
      var c := Plan(mid, until - 1, hazardLane);
      var b := BeatPlan(until - 1, hazardLane);
      assert (a + c) + b == a + (c + b);
    }
  }

  /** Spawning a range of beats is spawning its two halves one after the other. */
  lemma SpawnedSplit(from: nat, mid: nat, until: nat, lastId: int, hazardLane: nat -> Lane)
    requires from <= mid <= until
    ensures Spawned(from, until, lastId, hazardLane) ==
      Spawned(from, mid, lastId, hazardLane)
        + Spawned(mid, until, lastId + |Spawned(from, mid, lastId, hazardLane)|, hazardLane)
  {
    var a := Plan(from, mid, hazardLane);
    var b := Plan(mid, until, hazardLane);
    assert Plan(from, until, hazardLane) == a + b by {
      PlanSplit(from, mid, until, hazardLane);
    }
    assert |Spawned(from, mid, lastId, hazardLane)| == |a|;
    NumberedAppend(a, b, lastId);
  }

  /** The beats around `beat`: the earlier ones, `beat` itself, the later ones. */
  lemma PlanAround(from: nat, until: nat, hazardLane: nat -> Lane, beat: nat)
    requires from <= beat < until
    ensures Plan(from, until, hazardLane) ==
      Plan(from, beat, hazardLane) + BeatPlan(beat, hazardLane) + Plan(beat + 1, until, hazardLane)
  {
    var a := Plan(from, beat, hazardLane);
    var b := BeatPlan(beat, hazardLane);
    var c := Plan(beat + 1, until, hazardLane);
    assert Plan(beat, until, hazardLane) == b + c by {
      PlanSplit(beat, beat + 1, until, hazardLane);
      PlanOne(beat, hazardLane);
    }
    PlanSplit(from, beat, until, hazardLane);
    assert a + (b + c) == a + b + c;
  }

  lemma PlanOne(beat: nat, hazardLane: nat -> Lane)
    ensures Plan(beat, beat + 1, hazardLane) == BeatPlan(beat, hazardLane)
  {
    assert Plan(beat, beat, hazardLane) == [];
  }

  /** Right after a restart (cursor and clock at 0) exactly beat 0 is due:
      one cheese in the left lane, id one past the factory's last. */
  lemma FirstBeat(lastId: int, hazardLane: nat -> Lane)
    ensures NextBeatCount(0, 0) == 1
    ensures Spawned(0, 1, lastId, hazardLane) == [Item(lastId + 1, Good, Cheese, Left, 0, false, None)]
  {
    PlanOne(0, hazardLane);
  }

  /** Items of beats before `beat` come earlier in time, items of later beats later. */
  lemma SpawnedTimes(from: nat, until: nat, lastId: int, hazardLane: nat -> Lane, beat: nat)
    ensures until <= beat ==> forall it :: it in Spawned(from, until, lastId, hazardLane) ==> it.spawnMs < beat * BeatMs
    ensures beat < from ==> forall it :: it in Spawned(from, until, lastId, hazardLane) ==> it.spawnMs > beat * BeatMs
  {
    var r := Spawned(from, until, lastId, hazardLane);
    SpawnedShape(from, until, lastId, hazardLane);
    forall it | it in r ensures until <= beat ==> it.spawnMs < beat * BeatMs
      ensures beat < from ==> it.spawnMs > beat * BeatMs
    {
      var k :| 0 <= k < |r| && r[k] == it;
      assert SpawnedFor(r[k], from, until, hazardLane);
      BeatTimeOrdered(it.spawnMs / BeatMs, beat);
      BeatTimeOrdered(beat, it.spawnMs / BeatMs);
    }
  }

  /** No beat is skipped or doubled: for every beat in range, the spawned list is
      the earlier beats' items, then exactly this beat's items (one good item,
      and a hazard when `beat % 3 == 2`), then the later beats' items, which
      by `SpawnedTimes` all have other times. */
  lemma SpawnedHasEveryBeat(from: nat, until: nat, lastId: int, hazardLane: nat -> Lane, beat: nat)
    requires from <= beat < until
    ensures var before := Spawned(from, beat, lastId, hazardLane);
      var here := BeatItems(beat, lastId + |before|, hazardLane);
      var after := Spawned(beat + 1, until, lastId + |before| + |here|, hazardLane);
      Spawned(from, until, lastId, hazardLane) == before + here + after
  {
    var before := Spawned(from, beat, lastId, hazardLane);
    var here := BeatItems(beat, lastId + |before|, hazardLane);
    var after := Spawned(beat + 1, until, lastId + |before| + |here|, hazardLane);
    var rest := Spawned(beat, until, lastId + |before|, hazardLane);
    assert Spawned(from, until, lastId, hazardLane) == before + rest by {
      SpawnedSplit(from, beat, until, lastId, hazardLane);
    }
    assert rest == here + after by {
      assert |here| == |BeatPlan(beat, hazardLane)|;
      SpawnedFirst(beat, until, lastId + |before|, hazardLane);
    }
    AppendAssoc(before, here, after);
  }

  /** The first beat of a run, followed by the others numbered where it stops. */
  lemma SpawnedFirst(from: nat, until: nat, lastId: int, hazardLane: nat -> Lane)
    requires from < until
    ensures Spawned(from, until, lastId, hazardLane) ==
      BeatItems(from, lastId, hazardLane)
        + Spawned(from + 1, until, lastId + |BeatPlan(from, hazardLane)|, hazardLane)
  {
    assert Spawned(from, from + 1, lastId, hazardLane) == BeatItems(from, lastId, hazardLane) by {
      PlanOne(from, hazardLane);
    }
    SpawnedSplit(from, from + 1, until, lastId, hazardLane);
  }

  /** What the spawner works on: the item list, `nextBeatRef`, `beatCountRef`
      and the value the id factory returned last. */
  datatype Spawner = Spawner(items: seq<Item>, nextBeat: int, beatCount: nat, lastId: int)

  /** The spawner loop: while the clock has reached `nextBeat`, append that
      beat's items with fresh ids and move both cursors on by one beat. */
  function SpawnUntil(sp: Spawner, clock: int, hazardLane: nat -> Lane): Spawner
    requires sp.nextBeat == sp.beatCount * BeatMs
    decreases clock - sp.nextBeat
  {
    if clock < sp.nextBeat then sp
    else
      SpawnUntil(Spawner(sp.items + BeatItems(sp.beatCount, sp.lastId, hazardLane),
                         sp.nextBeat + BeatMs, sp.beatCount + 1,
                         sp.lastId + |BeatPlan(sp.beatCount, hazardLane)|),
                 clock, hazardLane)
  }

  /** The loop in closed form: the beat count ends at `NextBeatCount`, and the
      list gains exactly the items of the beats in between, in beat order,
      numbered by consecutive calls of the id factory. */
  lemma {:induction false} SpawnUntilCatchesUp(sp: Spawner, clock: int, hazardLane: nat -> Lane)
    requires sp.nextBeat == sp.beatCount * BeatMs
    ensures SpawnUntil(sp, clock, hazardLane) ==
      Spawner(sp.items + Spawned(sp.beatCount, NextBeatCount(sp.beatCount, clock), sp.lastId, hazardLane),
              NextBeatCount(sp.beatCount, clock) * BeatMs,
              NextBeatCount(sp.beatCount, clock),
              sp.lastId + |Spawned(sp.beatCount, NextBeatCount(sp.beatCount, clock), sp.lastId, hazardLane)|)
    decreases clock - sp.nextBeat
  {
    var b := sp.beatCount;
    var n := NextBeatCount(b, clock);
    if clock < sp.nextBeat {
      assert Spawned(b, b, sp.lastId, hazardLane) == [];
      assert sp.items + [] == sp.items;
    } else {
      var here := BeatItems(b, sp.lastId, hazardLane);
      var nextId := sp.lastId + |BeatPlan(b, hazardLane)|;
      var next := Spawner(sp.items + here, sp.nextBeat + BeatMs, b + 1, nextId);
      assert NextBeatCount(b + 1, clock) == n by {
        NextBeatCountUnique(b + 1, clock, n);
      }
      SpawnUntilCatchesUp(next, clock, hazardLane);
      SpawnedPrepend(sp.items, b, n, sp.lastId, hazardLane);
    }
  }

  /** A list followed by beat `b` and then the beats after it is the list
      followed by all these beats, and the id factory ends in the same place. */
  lemma SpawnedPrepend(items: seq<Item>, b: nat, n: nat, lastId: int, hazardLane: nat -> Lane)
    requires b < n
    ensures var nextId := lastId + |BeatPlan(b, hazardLane)|;
      && (items + BeatItems(b, lastId, hazardLane)) + Spawned(b + 1, n, nextId, hazardLane)
           == items + Spawned(b, n, lastId, hazardLane)
      && nextId + |Spawned(b + 1, n, nextId, hazardLane)| == lastId + |Spawned(b, n, lastId, hazardLane)|
  {
    var here := BeatItems(b, lastId, hazardLane);
    var rest := Spawned(b + 1, n, lastId + |BeatPlan(b, hazardLane)|, hazardLane);
    assert Spawned(b, n, lastId, hazardLane) == here + rest by {
      SpawnedFirst(b, n, lastId, hazardLane);
    }
    assert (items + here) + rest == items + (here + rest);
  }

  // ---------------------------------------------------------------------------
  // Tap resolution

  /** How far, in ms, the clock is from the item's ideal hit time `spawnMs + FallMs`. */
  function Distance(it: Item, clock: int): int {
    Abs(it.spawnMs + FallMs - clock)
  }

  /** A good item must be tapped in its own lane; a hazard by the centre lane or a swipe. */
  predicate LaneMatches(it: Item, lane: Lane, source: Source) {
    if it.kind == Good then it.lane == lane else lane == Center || source == Swipe
  }

  /** An item a tap may resolve: unresolved, inside the (inclusive) window, lane rule met. */
  predicate Candidate(it: Item, clock: int, lane: Lane, source: Source) {
    !it.resolved && Distance(it, clock) <= HitWindowMs && LaneMatches(it, lane, source)
  }

  /** `b` is the index a tap resolves: -1 when there is no candidate; otherwise a
      candidate of least distance, the lowest such index winning a tie. */
  ghost predicate IsBest(s: seq<Item>, clock: int, lane: Lane, source: Source, b: int) {
    if b < 0 then
      b == -1 && forall i :: 0 <= i < |s| ==> !Candidate(s[i], clock, lane, source)
    else
      && b < |s| && Candidate(s[b], clock, lane, source)
      && (forall i :: 0 <= i < b && Candidate(s[i], clock, lane, source) ==>
            Distance(s[i], clock) > Distance(s[b], clock))
      && (forall i :: b < i < |s| && Candidate(s[i], clock, lane, source) ==>
            Distance(s[i], clock) >= Distance(s[b], clock))
  }

  /** The index the scan of a tap ends with. */
  function BestIndex(s: seq<Item>, clock: int, lane: Lane, source: Source): (b: int)
    ensures -1 <= b < |s|
    ensures 0 <= b ==> Candidate(s[b], clock, lane, source)
  {
    if s == [] then -1
    else
      var b := BestIndex(s[..|s| - 1], clock, lane, source);
      var last := s[|s| - 1];
      if Candidate(last, clock, lane, source) && (b < 0 || Distance(last, clock) < Distance(s[b], clock))
      then |s| - 1
      else b
  }
  /** One more item of the scan: it becomes the best when it is a candidate
      strictly nearer than the best so far. */
  lemma BestIndexPrefixStep(s: seq<Item>, i: nat, clock: int, lane: Lane, source: Source)
    requires i < |s|
    ensures var b := BestIndex(s[..i], clock, lane, source);
      && b < i
      && BestIndex(s[..i + 1], clock, lane, source) ==
           if Candidate(s[i], clock, lane, source) && (b < 0 || Distance(s[i], clock) < Distance(s[b], clock))
           then i else b
  {
    var p := s[..i + 1];
    assert p[..i] == s[..i] && p[i] == s[i];
    var b := BestIndex(s[..i], clock, lane, source);
    assert 0 <= b ==> s[..i][b] == s[b];
  }


  lemma {:induction false} BestIndexIsBest(s: seq<Item>, clock: int, lane: Lane, source: Source)
    ensures IsBest(s, clock, lane, source, BestIndex(s, clock, lane, source))
  {
    if s != [] {
      var init := s[..|s| - 1];
      BestIndexIsBest(init, clock, lane, source);
      var b := BestIndex(init, clock, lane, source);
      assert forall i :: 0 <= i < |init| ==> init[i] == s[i];
    }
  }

  /** The selection rule leaves no choice: at most one index meets it. */
  lemma BestUnique(s: seq<Item>, clock: int, lane: Lane, source: Source, b1: int, b2: int)
    requires IsBest(s, clock, lane, source, b1) && IsBest(s, clock, lane, source, b2)
    ensures b1 == b2
  {
  }

  /** The item after a tap resolved it at `clock`. */
  function Resolve(it: Item, clock: int): (r: Item)
    ensures r.resolved && r.resolvedAt == Some(clock)
    ensures r.(resolved := it.resolved, resolvedAt := it.resolvedAt) == it
  {
    it.(resolved := true, resolvedAt := Some(clock))
  }

  predicate IsPerfect(it: Item, clock: int) {
    it.kind == Good && Distance(it, clock) <= PerfectWindowMs
  }

  /** The meter change of resolving `it`: +5 for a hazard, +12 for a perfect good item, +9 otherwise. */
  function TapAward(it: Item, clock: int): int {
    if it.kind == Hazard then HazardAward else if IsPerfect(it, clock) then PerfectAward else GoodAward
  }

  /** A tap earns one of the three awards, each in exactly one case: 5 for
      a hazard, 12 for a good item at most 140 ms from its landing time, 9
      for any other good item; the meter never drops and never passes 100. */
  lemma TapScoring(it: Item, clock: int, meter: int)
    requires 0 <= meter <= MeterMax
    ensures TapAward(it, clock) in {HazardAward, PerfectAward, GoodAward}
    ensures TapAward(it, clock) == HazardAward <==> it.kind == Hazard
    ensures TapAward(it, clock) == PerfectAward <==>
      it.kind == Good && it.spawnMs + FallMs - PerfectWindowMs <= clock <= it.spawnMs + FallMs + PerfectWindowMs
    ensures TapAward(it, clock) == GoodAward <==>
      it.kind == Good && (clock < it.spawnMs + FallMs - PerfectWindowMs || it.spawnMs + FallMs + PerfectWindowMs < clock)
    ensures meter <= Clamp(meter + TapAward(it, clock), 0, MeterMax) <= MeterMax
  {
  }

  // ---------------------------------------------------------------------------
  // Decoration expiry

  /** `list.filter((e) => clock - e.spawnedAt < lifeMs)`. */
  function Unexpired(s: seq<Flash>, clock: int, lifeMs: int): (r: seq<Flash>)
    ensures |r| <= |s|
    ensures forall f :: f in r <==> f in s && clock - f.spawnedAt < lifeMs
  {
    if s == [] then []
    else (if clock - s[0].spawnedAt < lifeMs then [s[0]] else []) + Unexpired(s[1..], clock, lifeMs)
  }

  /** The filter distributes over concatenation, so the surviving entries
      keep their relative order. */
  lemma {:induction false} UnexpiredAppend(a: seq<Flash>, b: seq<Flash>, clock: int, lifeMs: int)
    ensures Unexpired(a + b, clock, lifeMs) == Unexpired(a, clock, lifeMs) + Unexpired(b, clock, lifeMs)
  {
    if a == [] {
      assert a + b == b;
    } else {
      assert (a + b)[0] == a[0];
      assert (a + b)[1..] == a[1..] + b;
      UnexpiredAppend(a[1..], b, clock, lifeMs);
    }
  }

  /** A list whose entries are all still young is left as it is. */
  lemma {:induction false} UnexpiredKeepsYoung(s: seq<Flash>, clock: int, lifeMs: int)
    requires forall f :: f in s ==> clock - f.spawnedAt < lifeMs
    ensures Unexpired(s, clock, lifeMs) == s
  {
    if s != [] {
      assert forall f :: f in s[1..] ==> f in s;
      UnexpiredKeepsYoung(s[1..], clock, lifeMs);
    }
  }

  // ---------------------------------------------------------------------------
  // Input classification

  /** The lane of a pointer at `x` percent of the play area's width. */
  function ScreenLane(x: real): Lane {
    if x < 33.0 then Left else if x > 66.0 then Right else Center
  }

  function LaneRank(lane: Lane): int {
    match lane
    case Left => 0
    case Center => 1
    case Right => 2
  }

  /** Lanes follow the pointer from left to right; both boundaries belong to the centre. */
  lemma ScreenLaneOrdered(x: real, y: real)
    requires x <= y
    ensures LaneRank(ScreenLane(x)) <= LaneRank(ScreenLane(y))
    ensures ScreenLane(33.0) == Center && ScreenLane(66.0) == Center
  {
  }

  /** A touch that started at `startY` (if one was recorded) and ended at `endY` is a swipe up. */
  predicate IsSwipeUp(startY: Option<real>, endY: real) {
    startY.Some? && startY.value - endY > SwipeMinPx
  }
}
