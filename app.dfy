/** The component of src/App.jsx as an object: its React state and refs are
    the fields of `Game`, and each handler or effect is a method that updates
    them in place. Every method is proved to move the fields exactly as the
    matching transition of module Simulation moves a `State`, so everything
    proved there about the transitions holds of the object too. */
module App {
  import opened Common
  import opened GameRules
  import opened Simulation

  /** `makeIdFactory`: a counter that starts at 1 and returns its next value. */
  class IdFactory {
    var nextId: int

    constructor ()
      ensures nextId == 1
    {
      nextId := 1;
    }

    /** Each call returns a value greater than every value returned before. */
    method Next() returns (id: int)
      modifies this`nextId
      ensures id == old(nextId) + 1 && nextId == id
    {
      nextId := nextId + 1;
      id := nextId;
    }
  }

  /** Position of the first draw that differs from `exclude`. */
  function FirstOther(draws: seq<int>, exclude: int): (k: nat)
    requires exists k :: 0 <= k < |draws| && draws[k] != exclude
    ensures k < |draws| && draws[k] != exclude
    ensures forall j :: 0 <= j < k ==> draws[j] == exclude
  {
    if draws[0] != exclude then 0
    else
      assert exists k :: 0 <= k < |draws[1..]| && draws[1..][k] != exclude by {
        var k :| 0 <= k < |draws| && draws[k] != exclude;
        assert draws[1..][k - 1] == draws[k];
      }
      1 + FirstOther(draws[1..], exclude)
  }

  /** `pickRandomIndex(length, exclude)`. `draws` are the successive values of
      `Math.floor(Math.random() * length)`; the loop stops at the first one
      different from `exclude`, which the caller promises exists. */
  method PickRandomIndex(length: int, exclude: int, draws: seq<int>) returns (index: int)
    requires length > 1 ==> forall k :: 0 <= k < |draws| ==> 0 <= draws[k] < length
    requires length > 1 ==> exists k :: 0 <= k < |draws| && draws[k] != exclude
    ensures length <= 1 ==> index == 0
    ensures length > 1 ==> 0 <= index < length && index != exclude
    ensures length > 1 ==> index == draws[FirstOther(draws, exclude)]
  {
    if length <= 1 {
      return 0;
    }
    var k := 0;
    index := draws[0];
    while index == exclude
      invariant 0 <= k < |draws| && index == draws[k]
      invariant forall j :: 0 <= j <= k ==> draws[j] == exclude || j == k
      invariant forall j :: 0 <= j < k ==> draws[j] == exclude
      decreases |draws| - k
    {
      assert k + 1 < |draws| by {
        var m :| 0 <= m < |draws| && draws[m] != exclude;
        assert k < m;
      }
      k := k + 1;
      index := draws[k];
    }
    assert k == FirstOther(draws, exclude) by {
      var f := FirstOther(draws, exclude);
      assert !(f < k) && !(k < f);
    }
  }

  /** The loop of the expiry pass: the items it keeps, and whether a good
      item or a hazard fell past the miss threshold unresolved. */
  method CullItems(current: seq<Item>, clock: int) returns (kept: seq<Item>, missedGood: bool, hazardHit: bool)
    ensures kept == Culled(current, clock)
    ensures missedGood <==> AnyExpired(current, clock, Good)
    ensures hazardHit <==> AnyExpired(current, clock, Hazard)
  {
    kept := [];
    missedGood := false;
    hazardHit := false;
    for i := 0 to |current|
      invariant kept == Culled(current[..i], clock)
      invariant missedGood <==> AnyExpired(current[..i], clock, Good)
      invariant hazardHit <==> AnyExpired(current[..i], clock, Hazard)
    {
      var item := current[i];
      CullPrefixStep(current, i, clock);
      if item.resolved {
        if clock - item.spawnMs < ResolvedGraceMs {
          kept := kept + [item];
        }
      } else if clock - item.spawnMs > MissAfterMs {
        if item.kind == Good {
          missedGood := true;
        } else {
          hazardHit := true;
        }
      } else {
        kept := kept + [item];
      }
    }
    assert current[..|current|] == current;
  }

  /** The scan of `performRhythmAction`: the index of the candidate nearest to
      its hit time, the first one on a tie, or -1. `None` stands for the
      initial `Number.POSITIVE_INFINITY`. */
  method FindBest(items: seq<Item>, clock: int, lane: Lane, source: Source) returns (bestIndex: int)
    ensures bestIndex == BestIndex(items, clock, lane, source)
    ensures IsBest(items, clock, lane, source, bestIndex)
  {
    bestIndex := -1;
    var bestDistance: Option<int> := None;
    for i := 0 to |items|
      invariant bestIndex == BestIndex(items[..i], clock, lane, source) && -1 <= bestIndex < i
      invariant bestDistance == if bestIndex < 0 then None else Some(Distance(items[bestIndex], clock))
    {
      var item := items[i];
      BestIndexPrefixStep(items, i, clock, lane, source);
      if item.resolved {
        continue;
      }
      var hitTime := item.spawnMs + FallMs;
      var distance := Abs(hitTime - clock);
      if distance > HitWindowMs {
        continue;
      }
      var matches := false;
      if item.kind == Good {
        matches := item.lane == lane;
      } else {
        matches := lane == Center || source == Swipe;
      }
      if !matches {
        continue;
      }
      if bestDistance.None? || distance < bestDistance.value {
        bestDistance := Some(distance);
        bestIndex := i;
      }
    }
    assert items[..|items|] == items;
    assert IsBest(items, clock, lane, source, bestIndex) by {
      BestIndexIsBest(items, clock, lane, source);
    }
  }

  class Game {
    var phase: Phase
    var clockMs: int
    var partyMeter: int
    var feedback: string
    var items: seq<Item>
    var perfectPops: seq<Flash>
    var sparkles: seq<Flash>
    var hitReactionAt: Option<int>
    var shakeUntil: int
    var popoffTaps: int
    var playerLane: Lane
    var laneFlashUntil: map<Lane, int>
    /** `nextBeatRef` and `beatCountRef`. */
    var nextBeat: int
    var beatCount: nat
    /** `touchStartYRef`. */
    var touchStartY: Option<real>
    /** `idRef`. */
    const ids: IdFactory

    /** The fields as a `State`. */
    function Snapshot(): State
      reads this, ids
    {
      State(phase, clockMs, partyMeter, feedback, items, perfectPops, sparkles, hitReactionAt,
            shakeUntil, popoffTaps, playerLane, laneFlashUntil, nextBeat, beatCount, touchStartY,
            ids.nextId)
    }

    /** The component as it mounts. */
    constructor ()
      ensures Snapshot() == Initial()
      ensures Valid(Snapshot())
    {
      phase := Launch;
      clockMs := 0;
      partyMeter := 0;
      feedback := WelcomeText;
      items := [];
      perfectPops := [];
      sparkles := [];
      hitReactionAt := None;
      shakeUntil := 0;
      popoffTaps := 0;
      playerLane := Center;
      laneFlashUntil := map[Left := 0, Center := 0, Right := 0];
      nextBeat := 0;
      beatCount := 0;
      touchStartY := None;
      ids := new IdFactory();
      new;
      InitialValid();
    }

    // -------------------------------------------------------------------------
    // The effects

    /** One turn of the spawner loop: the good item of beat `beatCount`, and
        its hazard on every third beat, with fresh ids; both cursors move on. */
    method SpawnBeat(hazardLane: nat -> Lane)
      requires nextBeat == beatCount * BeatMs
      modifies this`items, this`beatCount, this`nextBeat, ids`nextId
      ensures items == old(items) + BeatItems(old(beatCount), old(ids.nextId), hazardLane)
      ensures ids.nextId == old(ids.nextId) + |BeatPlan(old(beatCount), hazardLane)|
      ensures beatCount == old(beatCount) + 1 && nextBeat == old(nextBeat) + BeatMs
    {
      var beat := beatCount;
      var spawnMs := nextBeat;
      var goodLane := if beat % 2 == 0 then Left else Right;
      var goodSubtype := if goodLane == Left then Cheese else Tea;
      var goodId := ids.Next();
      var spawned := [Item(goodId, Good, goodSubtype, goodLane, spawnMs, false, None)];
      if beat % 3 == 2 {
        var hazardId := ids.Next();
        spawned := spawned + [Item(hazardId, Hazard, NoSubtype, hazardLane(beat), spawnMs, false, None)];
      }
      assert spawned == BeatItems(beat, goodId - 1, hazardLane) by {
        var numbered := BeatItems(beat, goodId - 1, hazardLane);
        assert |numbered| == |spawned|;
        assert numbered[0] == spawned[0];
        assert beat % 3 == 2 ==> numbered[1] == spawned[1];
      }
      items := items + spawned;
      beatCount := beatCount + 1;
      nextBeat := nextBeat + BeatMs;
    }

    /** The spawner loop: while the clock has reached the next beat, spawn it. */
    method SpawnLoop(hazardLane: nat -> Lane)
      requires nextBeat == beatCount * BeatMs
      modifies this`items, this`beatCount, this`nextBeat, ids`nextId
      ensures Spawner(items, nextBeat, beatCount, ids.nextId) ==
        SpawnUntil(Spawner(old(items), old(nextBeat), old(beatCount), old(ids.nextId)), clockMs, hazardLane)
    {
      ghost var goal := SpawnUntil(Spawner(items, nextBeat, beatCount, ids.nextId), clockMs, hazardLane);
      while clockMs >= nextBeat
        invariant nextBeat == beatCount * BeatMs
        invariant SpawnUntil(Spawner(items, nextBeat, beatCount, ids.nextId), clockMs, hazardLane) == goal
        decreases clockMs - nextBeat
      {
        SpawnBeat(hazardLane);
      }
    }

    /** The beat spawner effect, which runs in the rhythm phase only. */
    method SpawnDueBeats(hazardLane: nat -> Lane)
      requires nextBeat == beatCount * BeatMs
      modifies this`items, this`beatCount, this`nextBeat, ids`nextId
      ensures Snapshot() == SpawnStep(old(Snapshot()), hazardLane)
    {
      if phase == Rhythm {
        SpawnLoop(hazardLane);
      }
    }

    /** The kept list replaces the items; a missed good item shows the miss text. */
    method ApplySweep(kept: seq<Item>, missedGood: bool)
      modifies this`items, this`feedback
      ensures Snapshot() == Swept(old(Snapshot()), kept, missedGood)
    {
      items := kept;
      if missedGood {
        feedback := MissedText;
      }
    }

    /** An expired hazard: a hazard line, the 7-point penalty, the hit
        reaction and the shake. */
    method ApplyHazardHit(line: nat)
      requires line < |HazardLines|
      modifies this`feedback, this`partyMeter, this`hitReactionAt, this`shakeUntil
      ensures Snapshot() == HazardStruck(old(Snapshot()), line)
    {
      feedback := HazardLines[line];
      partyMeter := Clamp(partyMeter - HazardPenalty, 0, MeterMax);
      hitReactionAt := Some(clockMs);
      shakeUntil := clockMs + HitReactionMs;
    }

    /** The expiry pass. */
    method CullExpired(line: nat)
      requires line < |HazardLines|
      modifies this`items, this`feedback, this`partyMeter, this`hitReactionAt, this`shakeUntil
      ensures Snapshot() == CullStep(old(Snapshot()), line)
    {
      if phase != Rhythm {
        return;
      }
      var kept, missedGood, hazardHit := CullItems(items, clockMs);
      ApplySweep(kept, missedGood);
      if hazardHit {
        ApplyHazardHit(line);
      }
    }

    /** The hit-reaction effect; `snapshot` is the value it was rendered with. */
    method ExpireHitReaction(snapshot: Option<int>)
      modifies this`hitReactionAt
      ensures Snapshot() == ExpireHit(old(Snapshot()), snapshot)
    {
      if snapshot.None? {
        return;
      }
      if clockMs - snapshot.value > HitReactionMs {
        hitReactionAt := None;
      }
    }

    /** The decoration effect: drop perfect pops older than 360 ms and sparkles older than 900 ms. */
    method ExpireFlashes()
      modifies this`perfectPops, this`sparkles
      ensures Snapshot() == ExpireDecorations(old(Snapshot()))
    {
      perfectPops := Unexpired(perfectPops, clockMs, PerfectPopLifeMs);
      sparkles := Unexpired(sparkles, clockMs, SparkleLifeMs);
    }

    /** The meter effect: a full meter ends the rhythm phase. */
    method CheckMeter()
      modifies this`phase, this`items, this`feedback
      ensures Snapshot() == PhaseCheck(old(Snapshot()))
    {
      if phase == Rhythm && partyMeter >= MeterMax {
        phase := PopOff;
        items := [];
        feedback := PopOffText;
      }
    }

    /** The effects in declaration order, as they run after a render. */
    method RunEffects(hazardLane: nat -> Lane, line: nat)
      requires nextBeat == beatCount * BeatMs && line < |HazardLines|
      modifies this, ids
      ensures Snapshot() == Effects(old(Snapshot()), hazardLane, line)
    {
      var rendered := hitReactionAt;
      SpawnDueBeats(hazardLane);
      CullExpired(line);
      ExpireHitReaction(rendered);
      ExpireFlashes();
      CheckMeter();
    }

    // -------------------------------------------------------------------------
    // The inputs

    /** A clock change and the effects of the render that follows it. */
    method Elapse(ms: int, hazardLane: nat -> Lane, line: nat)
      requires nextBeat == beatCount * BeatMs && line < |HazardLines|
      modifies this, ids
      ensures Snapshot() == Effects(Moved(old(Snapshot()), ms), hazardLane, line)
    {
      MoveClock(ms);
      RunEffects(hazardLane, line);
    }

    method MoveClock(ms: int)
      modifies this`clockMs
      ensures Snapshot() == Moved(old(Snapshot()), ms)
    {
      clockMs := clockMs + ms;
    }

    /** One interval tick (the interval does not run on the launch screen). */
    method Tick(hazardLane: nat -> Lane, line: nat)
      requires Valid(Snapshot()) && line < |HazardLines|
      modifies this, ids
      ensures Snapshot() == TickState(old(Snapshot()), hazardLane, line)
      ensures Valid(Snapshot())
    {
      TickValid(Snapshot(), hazardLane, line);
      if phase != Launch {
        Elapse(TickMs, hazardLane, line);
      }
    }

    /** `window.advanceTime(ms)`. */
    method AdvanceTime(step: Step, hazardLane: nat -> Lane, line: nat)
      requires Valid(Snapshot()) && line < |HazardLines|
      modifies this, ids
      ensures Snapshot() == AdvanceState(old(Snapshot()), step, hazardLane, line)
      ensures Valid(Snapshot())
    {
      AdvanceValid(Snapshot(), step, hazardLane, line);
      if step.Finite? && step.ms > 0 {
        Elapse(step.ms, hazardLane, line);
      }
    }

    /** The first assignments of `startGame`: the round's state. */
    method ClearRound()
      modifies this`clockMs, this`partyMeter, this`items, this`popoffTaps, this`playerLane
      ensures Snapshot() == Cleared(old(Snapshot()))
    {
      clockMs := 0;
      partyMeter := 0;
      items := [];
      popoffTaps := 0;
      playerLane := Center;
    }

    /** The last assignments of `startGame`: the spawner refs, the text, the phase. */
    method Rewind()
      modifies this`beatCount, this`nextBeat, this`feedback, this`phase
      ensures Snapshot() == Rewound(old(Snapshot()))
    {
      beatCount := 0;
      nextBeat := 0;
      feedback := StartText;
      phase := Rhythm;
    }

    /** `startGame`, and the effects of the render that follows it. */
    method StartGame(hazardLane: nat -> Lane, line: nat)
      requires Valid(Snapshot()) && line < |HazardLines|
      modifies this, ids
      ensures Snapshot() == StartState(old(Snapshot()), hazardLane, line)
      ensures Valid(Snapshot())
    {
      StartValid(Snapshot(), hazardLane, line);
      ClearRound();
      Rewind();
      RunEffects(hazardLane, line);
    }

    /** `performRhythmAction(lane, source)`; `line` is the feedback line drawn. */
    method PerformRhythmAction(lane: Lane, source: Source, line: nat)
      requires line < 3
      modifies this`items, this`laneFlashUntil, this`feedback, this`partyMeter, this`perfectPops, ids`nextId
      ensures Snapshot() == RhythmAction(old(Snapshot()), lane, source, line)
    {
      var selected: Option<Item> := None;
      var bestIndex := FindBest(items, clockMs, lane, source);
      if bestIndex >= 0 {
        selected := Some(items[bestIndex]);
      }
      ResolveSelected(bestIndex);
      FlashLane(lane);
      if selected.None? {
        feedback := NoHitText;
        return;
      }
      Score(selected.value, line);
    }

    /** The updater of `performRhythmAction`: the item at `bestIndex`, if
        any, is marked resolved now. */
    method ResolveSelected(bestIndex: int)
      requires bestIndex < |items|
      modifies this`items
      ensures Snapshot() == Selected(old(Snapshot()), bestIndex)
    {
      if bestIndex >= 0 {
        items := items[bestIndex := Resolve(items[bestIndex], clockMs)];
      }
    }

    /** `flashLane(lane)`. */
    method FlashLane(lane: Lane)
      modifies this`laneFlashUntil
      ensures Snapshot() == Flashed(old(Snapshot()), lane)
    {
      laneFlashUntil := laneFlashUntil[lane := clockMs + LaneFlashMs];
    }

    /** The scoring of `performRhythmAction` once an item was selected. */
    method Score(selected: Item, line: nat)
      requires line < 3
      modifies this`feedback, this`partyMeter, this`perfectPops, ids`nextId
      ensures Snapshot() == Scored(old(Snapshot()), selected, line)
    {
      var hitDistance := Abs(selected.spawnMs + FallMs - clockMs);
      if selected.kind == Hazard {
        feedback := HazardLines[line];
        partyMeter := Clamp(partyMeter + HazardAward, 0, MeterMax);
        return;
      }
      var isPerfect := hitDistance <= PerfectWindowMs;
      partyMeter := Clamp(partyMeter + (if isPerfect then PerfectAward else GoodAward), 0, MeterMax);
      feedback := SuccessLines[line];
      if isPerfect {
        SpawnPerfect();
      }
    }

    /** `spawnPerfect`: a perfect pop with a fresh id. */
    method SpawnPerfect()
      modifies this`perfectPops, ids`nextId
      ensures Snapshot() == PopSpawned(old(Snapshot()))
    {
      var id := ids.Next();
      perfectPops := perfectPops + [Flash(id, clockMs)];
    }

    /** `runPopoffTap`. */
    method RunPopoffTap()
      modifies this`sparkles, this`popoffTaps, this`feedback, this`phase, ids`nextId
      ensures Snapshot() == PopoffTap(old(Snapshot()))
    {
      SpawnSparkle();
      CountTap();
    }

    /** `spawnSparkle`: a sparkle with a fresh id (its random position is not modelled). */
    method SpawnSparkle()
      modifies this`sparkles, ids`nextId
      ensures Snapshot() == Sparkled(old(Snapshot()))
    {
      var id := ids.Next();
      sparkles := sparkles + [Flash(id, clockMs)];
    }

    /** The updater of `setPopoffTaps` in `runPopoffTap`. */
    method CountTap()
      modifies this`popoffTaps, this`feedback, this`phase
      ensures Snapshot() == Counted(old(Snapshot()))
    {
      var next := popoffTaps + 1;
      if next >= PopoffTargetTaps {
        feedback := VictoryText;
        phase := Victory;
        popoffTaps := PopoffTargetTaps;
      } else {
        popoffTaps := next;
      }
    }

    /** `performAction(lane, source)`, followed by the meter effect of the next render. */
    method PerformAction(lane: Lane, source: Source, line: nat)
      requires Valid(Snapshot()) && line < 3
      modifies this, ids
      ensures Snapshot() == ActionState(old(Snapshot()), lane, source, line)
      ensures Valid(Snapshot())
    {
      ActionValid(Snapshot(), lane, source, line);
      if phase == Rhythm {
        MoveTo(lane);
        PerformRhythmAction(lane, source, line);
        CheckMeter();
      } else if phase == PopOff {
        MoveTo(lane);
        RunPopoffTap();
        CheckMeter();
      }
    }

    /** `setPlayerLane(lane)`. */
    method MoveTo(lane: Lane)
      modifies this`playerLane
      ensures Snapshot() == old(Snapshot()).(playerLane := lane)
    {
      playerLane := lane;
    }

    /** `handleGlobalPointerDown` with the pointer at `x` percent of the width. */
    method PointerDown(x: real, line: nat)
      requires Valid(Snapshot()) && line < 3
      modifies this, ids
      ensures Snapshot() == PointerState(old(Snapshot()), x, line)
      ensures Valid(Snapshot())
    {
      PointerValid(Snapshot(), x, line);
      if phase == Launch || phase == Victory {
        return;
      }
      var lane := if x < 33.0 then Left else if x > 66.0 then Right else Center;
      PerformAction(lane, Tap, line);
    }

    /** `handleTouchStart`; `y` is the first touch's position, if any. */
    method TouchStart(y: Option<real>)
      requires Valid(Snapshot())
      modifies this`touchStartY
      ensures Snapshot() == TouchStartState(old(Snapshot()), y)
      ensures Valid(Snapshot())
    {
      TouchValid(Snapshot(), y, None, 0);
      if y.Some? {
        touchStartY := y;
      }
    }

    /** `handleTouchEnd`; `endY` is the first changed touch's position, if any. */
    method TouchEnd(endY: Option<real>, line: nat)
      requires Valid(Snapshot()) && line < 3
      modifies this, ids
      ensures Snapshot() == TouchEndState(old(Snapshot()), endY, line)
      ensures Valid(Snapshot())
    {
      TouchValid(Snapshot(), None, endY, line);
      if endY.None? {
        return;
      }
      var startY := touchStartY;
      if startY.Some? && startY.value - endY.value > SwipeMinPx {
        PerformAction(Center, Swipe, line);
      }
      ForgetTouch();
    }

    /** `touchStartYRef.current = null`. */
    method ForgetTouch()
      modifies this`touchStartY
      ensures Snapshot() == old(Snapshot()).(touchStartY := None)
    {
      touchStartY := None;
    }
  }
}
