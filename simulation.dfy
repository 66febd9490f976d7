/** The game of src/App.jsx as a sequential state machine over values.

    A `State` holds what the component keeps in React state and refs. Each
    input (a clock tick, `advanceTime`, starting the game, an action, raw
    pointer and touch events) is a function from state to state. A change
    of the clock or of the phase is followed by one pass of the effects in
    their declaration order: spawn beats, cull expired items, expire the hit
    reaction, expire decorations, check the meter.

    Random choices are parameters: `hazardLane(beat)` is the lane drawn for
    the hazard of beat `beat`, and `line < 3` is the index `choice` draws
    from a list of feedback texts. */
module Simulation {
  import opened Common
  import opened GameRules

  /** A lane highlight lasts 180 ms after the lane is tapped. */
  const LaneFlashMs := 180

  datatype State = State(
    phase: Phase,
    clockMs: int,
    partyMeter: int,
    feedback: string,
    items: seq<Item>,
    perfectPops: seq<Flash>,
    sparkles: seq<Flash>,
    hitReactionAt: Option<int>,
    shakeUntil: int,
    popoffTaps: int,
    playerLane: Lane,
    laneFlashUntil: map<Lane, int>,
    nextBeat: int,
    beatCount: nat,
    touchStartY: Option<real>,
    /** The value the id factory returned last (1 before its first call). */
    lastId: int)

  /** The state when the component mounts. */
  function Initial(): (s: State)
    ensures s.phase == Launch && s.clockMs == 0 && s.partyMeter == 0 && s.items == []
    ensures s.beatCount == 0 && s.nextBeat == 0 && s.lastId == 1
  {
    State(Launch, 0, 0, WelcomeText, [], [], [], None, 0, 0, Center,
          map[Left := 0, Center := 0, Right := 0], 0, 0, None, 1)
  }

  /** Every item has an id the factory already issued, ids increase along the
      list, and every item belongs to a beat the spawner has passed. */
  predicate ItemsWellFormed(items: seq<Item>, lastId: int, nextBeat: int) {
    && IdsIncreasing(items)
    && forall it :: it in items ==> it.id <= lastId && it.spawnMs < nextBeat
  }

  /** What holds between any two inputs. */
  predicate Valid(s: State) {
    && 0 <= s.partyMeter <= MeterMax
    && 0 <= s.popoffTaps <= PopoffTargetTaps
    && s.nextBeat == s.beatCount * BeatMs
    && (s.phase == Launch ==> s.partyMeter == 0 && s.popoffTaps == 0)
    && (s.phase == Rhythm ==> s.clockMs < s.nextBeat && s.partyMeter < MeterMax && s.popoffTaps == 0)
    && (s.phase == PopOff ==> s.popoffTaps < PopoffTargetTaps)
    && (s.phase == Victory ==> s.popoffTaps == PopoffTargetTaps)
    && (s.phase != Rhythm ==> s.items == [])
    && ItemsWellFormed(s.items, s.lastId, s.nextBeat)
    && (forall it :: it in s.items ==> Kept(it, s.clockMs))
    && 0 <= s.clockMs
    && (s.hitReactionAt.Some? ==> 0 <= s.hitReactionAt.value && s.clockMs - s.hitReactionAt.value <= HitReactionMs)
  }

  lemma InitialValid()
    ensures Valid(Initial())
  {
  }

  // ---------------------------------------------------------------------------
  // The effects pass

  /** The spawner: in the rhythm phase, emit every beat whose time has come. */
  function SpawnStep(s: State, hazardLane: nat -> Lane): State
    requires s.nextBeat == s.beatCount * BeatMs
  {
    if s.phase != Rhythm then s
    else
      var sp := SpawnUntil(Spawner(s.items, s.nextBeat, s.beatCount, s.lastId), s.clockMs, hazardLane);
      s.(items := sp.items, nextBeat := sp.nextBeat, beatCount := sp.beatCount, lastId := sp.lastId)
  }

  /** The expiry pass: drop expired and old resolved items; a missed good item
      only changes the feedback, an expired hazard also costs 7 meter points
      and starts the hit reaction and the shake. */
  function CullStep(s: State, line: nat): State
    requires line < |HazardLines|
  {
    if s.phase != Rhythm then s
    else Culling(s, Culled(s.items, s.clockMs), AnyExpired(s.items, s.clockMs, Good),
                 AnyExpired(s.items, s.clockMs, Hazard), line)
  }

  /** The updates of the expiry pass once the loop has computed the kept
      list and the two flags. */
  function Culling(s: State, kept: seq<Item>, missedGood: bool, hazardHit: bool, line: nat): State
    requires line < |HazardLines|
  {
    var s1 := Swept(s, kept, missedGood);
    if hazardHit then HazardStruck(s1, line) else s1
  }

  /** The kept list replaces the items; a missed good item shows the miss text. */
  function Swept(s: State, kept: seq<Item>, missedGood: bool): State {
    s.(items := kept, feedback := if missedGood then MissedText else s.feedback)
  }

  /** A hazard reached the player: a hazard line, the 7-point penalty, the
      hit reaction and the shake. */
  function HazardStruck(s: State, line: nat): State
    requires line < |HazardLines|
  {
    s.(feedback := HazardLines[line],
       partyMeter := Clamp(s.partyMeter - HazardPenalty, 0, MeterMax),
       hitReactionAt := Some(s.clockMs),
       shakeUntil := s.clockMs + HitReactionMs)
  }

  /** The hit reaction ends once more than 260 ms have passed since `snapshot`,
      the value the pass started with. */
  function ExpireHit(s: State, snapshot: Option<int>): State {
    if snapshot.Some? && s.clockMs - snapshot.value > HitReactionMs then s.(hitReactionAt := None)
    else s
  }

  /** Perfect pops live 360 ms, sparkles 900 ms. */
  function ExpireDecorations(s: State): State {
    s.(perfectPops := Unexpired(s.perfectPops, s.clockMs, PerfectPopLifeMs),
       sparkles := Unexpired(s.sparkles, s.clockMs, SparkleLifeMs))
  }

  /** A full meter ends the rhythm phase. */
  function PhaseCheck(s: State): State {
    if s.phase == Rhythm && s.partyMeter >= MeterMax then
      s.(phase := PopOff, items := [], feedback := PopOffText)
    else s
  }

  function Effects(s: State, hazardLane: nat -> Lane, line: nat): State
    requires s.nextBeat == s.beatCount * BeatMs && line < |HazardLines|
  {
    PhaseCheck(ExpireDecorations(ExpireHit(CullStep(SpawnStep(s, hazardLane), line), s.hitReactionAt)))
  }

  // ---------------------------------------------------------------------------
  // Inputs

  /** The state with its clock moved forward by `ms`. */
  function Moved(s: State, ms: int): State {
    s.(clockMs := s.clockMs + ms)
  }

  /** One interval tick: outside the launch screen the clock gains 33 ms. */
  function TickState(s: State, hazardLane: nat -> Lane, line: nat): State
    requires s.nextBeat == s.beatCount * BeatMs && line < |HazardLines|
  {
    if s.phase == Launch then s
    else Effects(Moved(s, TickMs), hazardLane, line)
  }

  /** The argument of `advanceTime`: a finite number of milliseconds, or anything else. */
  datatype Step = Finite(ms: int) | NotFinite

  /** `advanceTime` moves the clock by a positive finite step, in any phase. */
  function AdvanceState(s: State, step: Step, hazardLane: nat -> Lane, line: nat): State
    requires s.nextBeat == s.beatCount * BeatMs && line < |HazardLines|
  {
    if step.NotFinite? || step.ms <= 0 then s
    else Effects(Moved(s, step.ms), hazardLane, line)
  }

  /** `startGame`: reset the round and enter the rhythm phase. The hit
      reaction, shake, decorations, lane highlights and id factory are kept. */
  function StartState(s: State, hazardLane: nat -> Lane, line: nat): State
    requires line < |HazardLines|
  {
    Effects(Restarted(s), hazardLane, line)
  }

  /** The assignments `startGame` makes before the effects run. */
  function Restarted(s: State): State {
    Rewound(Cleared(s))
  }

  /** The round's state is reset: clock, meter, items, pop-off taps, lane. */
  function Cleared(s: State): State {
    s.(clockMs := 0, partyMeter := 0, items := [], popoffTaps := 0, playerLane := Center)
  }

  /** Both spawner cursors go back to beat 0 and the rhythm phase begins. */
  function Rewound(s: State): State {
    s.(beatCount := 0, nextBeat := 0, feedback := StartText, phase := Rhythm)
  }

  /** `performRhythmAction`: resolve the best candidate, highlight the lane, score. */
  function RhythmAction(s: State, lane: Lane, source: Source, line: nat): State
    requires line < 3
  {
    var b := BestIndex(s.items, s.clockMs, lane, source);
    var s1 := Flashed(Selected(s, b), lane);
    if b < 0 then s1.(feedback := NoHitText)
    else Scored(s1, s.items[b], line)
  }

  /** The item at `b`, if any, is marked resolved at the current time. */
  function Selected(s: State, b: int): State
    requires b < |s.items|
  {
    if b < 0 then s else s.(items := s.items[b := Resolve(s.items[b], s.clockMs)])
  }

  /** `flashLane`: the lane stays highlighted for 180 ms. */
  function Flashed(s: State, lane: Lane): State {
    s.(laneFlashUntil := s.laneFlashUntil[lane := s.clockMs + LaneFlashMs])
  }

  /** The award for the selected item `it`: a hazard line and +5 for a
      hazard, otherwise a success line, +12 or +9, and a perfect pop for a
      perfect hit. */
  function Scored(s: State, it: Item, line: nat): State
    requires line < 3
  {
    if it.kind == Hazard then
      s.(feedback := HazardLines[line], partyMeter := Clamp(s.partyMeter + HazardAward, 0, MeterMax))
    else
      var s1 := s.(partyMeter := Clamp(s.partyMeter + TapAward(it, s.clockMs), 0, MeterMax),
                   feedback := SuccessLines[line]);
      if IsPerfect(it, s.clockMs) then PopSpawned(s1) else s1
  }

  /** `spawnPerfect`: a perfect pop with a fresh id at the current time. */
  function PopSpawned(s: State): State {
    s.(perfectPops := s.perfectPops + [Flash(s.lastId + 1, s.clockMs)], lastId := s.lastId + 1)
  }

  /** `runPopoffTap`: add a sparkle and count the tap; the 16th tap wins. */
  function PopoffTap(s: State): State {
    Counted(Sparkled(s))
  }

  /** `spawnSparkle`: a sparkle with a fresh id at the current time. */
  function Sparkled(s: State): State {
    s.(sparkles := s.sparkles + [Flash(s.lastId + 1, s.clockMs)], lastId := s.lastId + 1)
  }

  /** The tap counter's updater: one more tap, and the 16th shows the victory. */
  function Counted(s: State): State {
    var next := s.popoffTaps + 1;
    if next >= PopoffTargetTaps then
      s.(popoffTaps := PopoffTargetTaps, feedback := VictoryText, phase := Victory)
    else s.(popoffTaps := next)
  }

  /** `performAction` followed by the meter check of the next render. */
  function ActionState(s: State, lane: Lane, source: Source, line: nat): State
    requires line < 3
  {
    match s.phase
    case Launch => s
    case Rhythm => PhaseCheck(RhythmAction(s.(playerLane := lane), lane, source, line))
    case PopOff => PhaseCheck(PopoffTap(s.(playerLane := lane)))
    case Victory => s
  }

  /** A pointer press at `x` percent of the width acts on the lane under it;
      it is ignored on the launch and victory screens. */
  function PointerState(s: State, x: real, line: nat): State
    requires line < 3
  {
    if s.phase == Launch || s.phase == Victory then s
    else ActionState(s, ScreenLane(x), Tap, line)
  }

  /** A touch start records the first touch's vertical position, if there is one. */
  function TouchStartState(s: State, y: Option<real>): State {
    if y.Some? then s.(touchStartY := y) else s
  }

  /** A touch end without a changed touch is ignored; otherwise a swipe up
      acts on the centre lane, and the recorded start is cleared. */
  function TouchEndState(s: State, endY: Option<real>, line: nat): State
    requires line < 3
  {
    if endY.None? then s
    else
      var s1 := if IsSwipeUp(s.touchStartY, endY.value) then ActionState(s, Center, Swipe, line) else s;
      s1.(touchStartY := None)
  }

  // ---------------------------------------------------------------------------
  // The invariant is kept by every input

  /** Appending freshly spawned beats keeps ids increasing and issued, and
      every item before the new cursor. */
  lemma SpawnedWellFormed(items: seq<Item>, from: nat, until: nat, lastId: int, hazardLane: nat -> Lane)
    requires from <= until && ItemsWellFormed(items, lastId, from * BeatMs)
    ensures ItemsWellFormed(items + Spawned(from, until, lastId, hazardLane),
                            lastId + |Spawned(from, until, lastId, hazardLane)|, until * BeatMs)
  {
    var spawned := Spawned(from, until, lastId, hazardLane);
    SpawnedIds(from, until, lastId, hazardLane);
    SpawnedShape(from, until, lastId, hazardLane);
    var all := items + spawned;
    forall it | it in spawned ensures it.spawnMs < until * BeatMs {
      var k :| 0 <= k < |spawned| && spawned[k] == it;
      assert SpawnedFor(spawned[k], from, until, hazardLane);
      var beat := it.spawnMs / BeatMs;
      assert beat * BeatMs < until * BeatMs by { BeatTimeOrdered(beat, until); }
    }
    assert from * BeatMs <= until * BeatMs by { BeatTimeOrdered(from, until); }
    forall i, j | 0 <= i < j < |all| ensures all[i].id < all[j].id {
      if j < |items| {
        assert all[i] == items[i] && all[j] == items[j];
      } else if i < |items| {
        assert all[i] == items[i] && items[i] in items;
        assert all[j] == spawned[j - |items|];
      } else {
        assert all[i] == spawned[i - |items|] && all[j] == spawned[j - |items|];
      }
    }
    forall it | it in all ensures it.id <= lastId + |spawned| && it.spawnMs < until * BeatMs {
      if it !in items {
        var k :| 0 <= k < |spawned| && spawned[k] == it;
      }
    }
  }

  /** The spawner keeps the items well formed and the cursors in step, and
      ends with the cursor past the clock; it changes nothing else. */
  lemma SpawnStepWellFormed(s: State, hazardLane: nat -> Lane)
    requires s.nextBeat == s.beatCount * BeatMs
    requires ItemsWellFormed(s.items, s.lastId, s.nextBeat)
    ensures var t := SpawnStep(s, hazardLane);
      && ItemsWellFormed(t.items, t.lastId, t.nextBeat)
      && t.nextBeat == t.beatCount * BeatMs && s.beatCount <= t.beatCount
      && (s.phase == Rhythm ==> t.clockMs < t.nextBeat)
      && t.(items := s.items, beatCount := s.beatCount, nextBeat := s.nextBeat, lastId := s.lastId) == s
  {
    if s.phase == Rhythm {
      var n := NextBeatCount(s.beatCount, s.clockMs);
      var spawned := Spawned(s.beatCount, n, s.lastId, hazardLane);
      assert SpawnStep(s, hazardLane) ==
        s.(items := s.items + spawned, beatCount := n, nextBeat := n * BeatMs, lastId := s.lastId + |spawned|) by {
        SpawnCatchesUp(s, hazardLane);
      }
      SpawnedWellFormed(s.items, s.beatCount, n, s.lastId, hazardLane);
    }
  }

  /** After the expiry pass every item is kept, and well-formedness survives. */
  lemma CullStepKeeps(s: State, line: nat)
    requires line < |HazardLines|
    requires ItemsWellFormed(s.items, s.lastId, s.nextBeat) && 0 <= s.partyMeter <= MeterMax
    ensures var t := CullStep(s, line);
      && ItemsWellFormed(t.items, t.lastId, t.nextBeat)
      && (s.phase == Rhythm ==> forall it :: it in t.items ==> Kept(it, t.clockMs))
      && 0 <= t.partyMeter <= s.partyMeter
      && t.(items := s.items, feedback := s.feedback, partyMeter := s.partyMeter,
            hitReactionAt := s.hitReactionAt, shakeUntil := s.shakeUntil) == s
  {
    if s.phase == Rhythm {
      CulledIdsIncreasing(s.items, s.clockMs);
    }
  }

  /** The effects pass restores the invariant for any state whose
      clock-independent part is sound and whose clock did not go back before
      an unspawned beat. */
  lemma EffectsValid(s: State, hazardLane: nat -> Lane, line: nat)
    requires line < |HazardLines|
    requires 0 <= s.partyMeter <= MeterMax && 0 <= s.popoffTaps <= PopoffTargetTaps
    requires s.nextBeat == s.beatCount * BeatMs
    requires s.phase == Launch ==> s.partyMeter == 0 && s.popoffTaps == 0
    requires s.phase == Rhythm ==> s.popoffTaps == 0
    requires s.phase == PopOff ==> s.popoffTaps < PopoffTargetTaps
    requires s.phase == Victory ==> s.popoffTaps == PopoffTargetTaps
    requires s.phase != Rhythm ==> s.items == []
    requires ItemsWellFormed(s.items, s.lastId, s.nextBeat)
    requires 0 <= s.clockMs && (s.hitReactionAt.Some? ==> 0 <= s.hitReactionAt.value)
    ensures Valid(Effects(s, hazardLane, line))
  {
    var s1 := SpawnStep(s, hazardLane);
    SpawnStepWellFormed(s, hazardLane);
    CullStepKeeps(s1, line);
  }

  /** Moving the clock forward and running the effects keeps the invariant. */
  lemma MovedValid(s: State, ms: int, hazardLane: nat -> Lane, line: nat)
    requires Valid(s) && ms > 0 && line < |HazardLines|
    ensures Valid(Effects(Moved(s, ms), hazardLane, line))
  {
    EffectsValid(Moved(s, ms), hazardLane, line);
  }

  lemma TickValid(s: State, hazardLane: nat -> Lane, line: nat)
    requires Valid(s) && line < |HazardLines|
    ensures Valid(TickState(s, hazardLane, line))
  {
    if s.phase != Launch {
      MovedValid(s, TickMs, hazardLane, line);
    }
  }

  lemma AdvanceValid(s: State, step: Step, hazardLane: nat -> Lane, line: nat)
    requires Valid(s) && line < |HazardLines|
    ensures Valid(AdvanceState(s, step, hazardLane, line))
  {
    if step.Finite? && step.ms > 0 {
      MovedValid(s, step.ms, hazardLane, line);
    }
  }

  lemma StartValid(s: State, hazardLane: nat -> Lane, line: nat)
    requires Valid(s) && line < |HazardLines|
    ensures Valid(StartState(s, hazardLane, line))
  {
    var s0 := Restarted(s);
    EffectsValid(s0, hazardLane, line);
  }

  /** What a rhythm action touches: the items only through `Selected`, the
      meter (kept within [0, 100]), the feedback, the lane highlights, the
      perfect pops and the id factory, which only moves forward. */
  lemma RhythmActionFrame(s: State, lane: Lane, source: Source, line: nat)
    requires line < 3
    ensures var t := RhythmAction(s, lane, source, line);
      && t.items == Selected(s, BestIndex(s.items, s.clockMs, lane, source)).items
      && t.phase == s.phase && t.clockMs == s.clockMs && t.nextBeat == s.nextBeat
      && t.beatCount == s.beatCount && t.popoffTaps == s.popoffTaps && t.sparkles == s.sparkles
      && t.hitReactionAt == s.hitReactionAt && t.shakeUntil == s.shakeUntil
      && t.playerLane == s.playerLane && t.touchStartY == s.touchStartY
      && s.lastId <= t.lastId
      && (0 <= s.partyMeter <= MeterMax ==> 0 <= t.partyMeter <= MeterMax)
  {
  }

  /** Resolving an item keeps it in its grace window and leaves ids and
      spawn times alone. */
  lemma SelectedKeeps(s: State, b: int)
    requires b < |s.items|
    requires ItemsWellFormed(s.items, s.lastId, s.nextBeat)
    requires forall it :: it in s.items ==> Kept(it, s.clockMs)
    ensures ItemsWellFormed(Selected(s, b).items, s.lastId, s.nextBeat)
    ensures forall it :: it in Selected(s, b).items ==> Kept(it, s.clockMs)
  {
    if b >= 0 {
      var items := Selected(s, b).items;
      assert forall i :: 0 <= i < |items| ==> items[i].id == s.items[i].id;
      forall it | it in items ensures Kept(it, s.clockMs) && it.spawnMs < s.nextBeat && it.id <= s.lastId {
        var k :| 0 <= k < |items| && items[k] == it;
        assert s.items[k] in s.items;
      }
    }
  }

  /** Resolving an item keeps it in its grace window and leaves ids alone. */
  lemma RhythmActionWellFormed(s: State, lane: Lane, source: Source, line: nat)
    requires line < 3 && Valid(s) && s.phase == Rhythm
    ensures var t := RhythmAction(s, lane, source, line);
      && ItemsWellFormed(t.items, t.lastId, t.nextBeat)
      && forall it :: it in t.items ==> Kept(it, t.clockMs)
  {
    var b := BestIndex(s.items, s.clockMs, lane, source);
    var t := RhythmAction(s, lane, source, line);
    RhythmActionFrame(s, lane, source, line);
    SelectedKeeps(s, b);
    assert forall it :: it in t.items ==> it.id <= t.lastId;
  }

  lemma ActionValid(s: State, lane: Lane, source: Source, line: nat)
    requires Valid(s) && line < 3
    ensures Valid(ActionState(s, lane, source, line))
  {
    if s.phase == Rhythm {
      RhythmValid(s, lane, source, line);
    } else if s.phase == PopOff {
      assert Valid(PopoffTap(s.(playerLane := lane)));
    }
  }

  /** A rhythm action followed by the meter check keeps the invariant. */
  lemma RhythmValid(s: State, lane: Lane, source: Source, line: nat)
    requires Valid(s) && s.phase == Rhythm && line < 3
    ensures Valid(PhaseCheck(RhythmAction(s.(playerLane := lane), lane, source, line)))
  {
    var s1 := s.(playerLane := lane);
    var t := RhythmAction(s1, lane, source, line);
    RhythmActionFrame(s1, lane, source, line);
    RhythmActionWellFormed(s1, lane, source, line);
    assert Valid(PhaseCheck(t));
  }

  lemma PointerValid(s: State, x: real, line: nat)
    requires Valid(s) && line < 3
    ensures Valid(PointerState(s, x, line))
  {
    if s.phase != Launch && s.phase != Victory {
      ActionValid(s, ScreenLane(x), Tap, line);
    }
  }

  lemma TouchValid(s: State, y: Option<real>, endY: Option<real>, line: nat)
    requires Valid(s) && line < 3
    ensures Valid(TouchStartState(s, y))
    ensures Valid(TouchEndState(s, endY, line))
  {
    if endY.Some? && IsSwipeUp(s.touchStartY, endY.value) {
      ActionValid(s, Center, Swipe, line);
    }
  }

  // ---------------------------------------------------------------------------
  // What the inputs do

  /** The clock only grows: by 33 ms per tick outside the launch screen, by the
      step for a positive finite `advanceTime`, and not at all otherwise. */
  lemma ClockGrows(s: State, step: Step, hazardLane: nat -> Lane, line: nat)
    requires Valid(s) && line < |HazardLines|
    ensures TickState(s, hazardLane, line).clockMs == s.clockMs + (if s.phase == Launch then 0 else TickMs)
    ensures AdvanceState(s, step, hazardLane, line).clockMs ==
      s.clockMs + (if step.Finite? && step.ms > 0 then step.ms else 0)
    ensures TickState(s, hazardLane, line).clockMs >= s.clockMs
    ensures AdvanceState(s, step, hazardLane, line).clockMs >= s.clockMs
  {
    if s.phase != Launch {
      EffectsKeepClock(Moved(s, TickMs), hazardLane, line);
    }
    if step.Finite? && step.ms > 0 {
      EffectsKeepClock(Moved(s, step.ms), hazardLane, line);
    }
  }

  /** The effects pass reads the clock but never sets it. */
  lemma EffectsKeepClock(s: State, hazardLane: nat -> Lane, line: nat)
    requires s.nextBeat == s.beatCount * BeatMs && line < |HazardLines|
    ensures Effects(s, hazardLane, line).clockMs == s.clockMs
  {
  }

  /** On the launch screen the clock does not tick, and no action does anything. */
  lemma LaunchIsIdle(s: State, lane: Lane, source: Source, x: real, hazardLane: nat -> Lane, line: nat)
    requires s.phase == Launch && s.nextBeat == s.beatCount * BeatMs && line < 3
    ensures TickState(s, hazardLane, line) == s
    ensures ActionState(s, lane, source, line) == s
    ensures PointerState(s, x, line) == s
  {
  }

  /** On the victory screen pointer input and swipes change nothing but the touch record. */
  lemma VictoryIgnoresInput(s: State, lane: Lane, source: Source, x: real, endY: Option<real>, line: nat)
    requires s.phase == Victory && line < 3
    ensures ActionState(s, lane, source, line) == s
    ensures PointerState(s, x, line) == s
    ensures TouchEndState(s, endY, line) == if endY.None? then s else s.(touchStartY := None)
  {
  }

  /** Starting the game: clock, meter, items and taps are zero or empty, the
      player stands in the centre, beat 0 (a cheese in the left lane at time
      0) has been spawned with the next id, and the rhythm phase begins. */
  lemma StartResets(s: State, hazardLane: nat -> Lane, line: nat)
    requires Valid(s) && line < |HazardLines|
    ensures var t := StartState(s, hazardLane, line);
      && t.phase == Rhythm && t.clockMs == 0 && t.partyMeter == 0 && t.popoffTaps == 0
      && t.playerLane == Center && t.feedback == StartText
      && t.items == [Item(s.lastId + 1, Good, Cheese, Left, 0, false, None)]
      && t.beatCount == 1 && t.nextBeat == BeatMs && t.lastId == s.lastId + 1
      && t.hitReactionAt == s.hitReactionAt && t.shakeUntil == s.shakeUntil
  {
    var s0 := Restarted(s);
    RestartedSpawn(s, hazardLane);
    var first := [Item(s.lastId + 1, Good, Cheese, Left, 0, false, None)];
    assert !Expired(first[0], 0);
    assert !AnyExpired(first, 0, Good) && !AnyExpired(first, 0, Hazard) && Culled(first, 0) == first;
  }

  /** The spawner's pass after a restart emits beat 0 alone. */
  lemma RestartedSpawn(s: State, hazardLane: nat -> Lane)
    ensures var t := SpawnStep(Restarted(s), hazardLane);
      && t.items == [Item(s.lastId + 1, Good, Cheese, Left, 0, false, None)]
      && t.beatCount == 1 && t.nextBeat == BeatMs && t.lastId == s.lastId + 1
  {
    SpawnCatchesUp(Restarted(s), hazardLane);
    FirstBeat(s.lastId, hazardLane);
  }

  /** The spawner catches up with the clock: the cursor ends past the clock,
      every beat from the old cursor up to the clock is spawned, and the new
      items are exactly those of these beats, in order (`SpawnedHasEveryBeat`
      says each appears once). */
  lemma SpawnCatchesUp(s: State, hazardLane: nat -> Lane)
    requires s.phase == Rhythm && s.nextBeat == s.beatCount * BeatMs
    ensures var t := SpawnStep(s, hazardLane);
      && t.clockMs < t.nextBeat && t.nextBeat == t.beatCount * BeatMs
      && s.beatCount <= t.beatCount
      && (forall beat: nat :: s.beatCount <= beat && beat * BeatMs <= s.clockMs ==> beat < t.beatCount)
      && (t.beatCount > s.beatCount ==> (t.beatCount - 1) * BeatMs <= s.clockMs)
      && t.items == s.items + Spawned(s.beatCount, t.beatCount, s.lastId, hazardLane)
      && t.lastId == s.lastId + |Spawned(s.beatCount, t.beatCount, s.lastId, hazardLane)|
  {
    SpawnUntilCatchesUp(Spawner(s.items, s.nextBeat, s.beatCount, s.lastId), s.clockMs, hazardLane);
    var n := NextBeatCount(s.beatCount, s.clockMs);
    forall beat: nat | s.beatCount <= beat && beat * BeatMs <= s.clockMs ensures beat < n {
      if n <= beat {
        BeatTimeOrdered(n, beat);
      }
    }
  }

  /** The effects of the expiry pass: the items become the culled list; an
      expired hazard costs 7 points (clamped at 0), sets the hit reaction to
      now and the shake to 260 ms from now, and picks a hazard line; an
      expired good item alone only sets the "keep the groove" text; with
      nothing expired only the item list changes. */
  lemma CullEffects(s: State, line: nat)
    requires s.phase == Rhythm && line < |HazardLines|
    ensures var t := CullStep(s, line);
      && t.items == Culled(s.items, s.clockMs)
      && (AnyExpired(s.items, s.clockMs, Hazard) ==>
            && t.partyMeter == Clamp(s.partyMeter - HazardPenalty, 0, MeterMax)
            && t.hitReactionAt == Some(s.clockMs) && t.shakeUntil == s.clockMs + HitReactionMs
            && t.feedback == HazardLines[line])
      && (!AnyExpired(s.items, s.clockMs, Hazard) ==>
            && t.partyMeter == s.partyMeter && t.hitReactionAt == s.hitReactionAt
            && t.shakeUntil == s.shakeUntil
            && t.feedback == (if AnyExpired(s.items, s.clockMs, Good) then MissedText else s.feedback))
      && t.(items := s.items, feedback := s.feedback, partyMeter := s.partyMeter,
            hitReactionAt := s.hitReactionAt, shakeUntil := s.shakeUntil) == s
  {
  }

  /** The hit reaction an effects pass leaves is never more than 260 ms old.
      One that was already older when the pass began is cleared, even when
      the pass also strikes a new hazard (React applies both setter calls in
      order, the clearing one last); a younger one is the one the expiry
      pass leaves. */
  lemma HitReactionExpires(s: State, hazardLane: nat -> Lane, line: nat)
    requires s.nextBeat == s.beatCount * BeatMs && line < |HazardLines|
    ensures var t := Effects(s, hazardLane, line);
      && t.clockMs == s.clockMs
      && (t.hitReactionAt.Some? ==> t.clockMs - t.hitReactionAt.value <= HitReactionMs)
      && (s.hitReactionAt.Some? && s.clockMs - s.hitReactionAt.value > HitReactionMs ==> t.hitReactionAt == None)
      && (s.hitReactionAt.Some? && s.clockMs - s.hitReactionAt.value <= HitReactionMs ==>
            t.hitReactionAt == CullStep(SpawnStep(s, hazardLane), line).hitReactionAt)
      && (s.hitReactionAt.None? ==> t.hitReactionAt == CullStep(SpawnStep(s, hazardLane), line).hitReactionAt)
  {
  }

  /** A tap resolves at most one item: the one `IsBest` singles out. The list
      keeps its length and every other entry. */
  lemma TapResolvesAtMostOne(s: State, lane: Lane, source: Source, line: nat)
    requires line < 3
    ensures var t := RhythmAction(s, lane, source, line);
      var b := BestIndex(s.items, s.clockMs, lane, source);
      && IsBest(s.items, s.clockMs, lane, source, b)
      && |t.items| == |s.items|
      && (forall i :: 0 <= i < |s.items| && i != b ==> t.items[i] == s.items[i])
      && (b >= 0 ==> t.items[b] == Resolve(s.items[b], s.clockMs))
      && (b < 0 ==> t.items == s.items)
  {
    BestIndexIsBest(s.items, s.clockMs, lane, source);
    RhythmActionFrame(s, lane, source, line);
  }

  /** Scoring of a tap: no candidate leaves the meter alone and says "Feel the
      groove!"; a hazard gives 5, a good item within 140 ms gives 12 and a
      perfect pop, any other good item 9; the meter stays within [0, 100]. */
  lemma TapScores(s: State, lane: Lane, source: Source, line: nat)
    requires line < 3 && 0 <= s.partyMeter <= MeterMax
    ensures var t := RhythmAction(s, lane, source, line);
      var b := BestIndex(s.items, s.clockMs, lane, source);
      && 0 <= t.partyMeter <= MeterMax
      && t.laneFlashUntil == s.laneFlashUntil[lane := s.clockMs + LaneFlashMs]
      && (b < 0 ==> t.partyMeter == s.partyMeter && t.feedback == NoHitText && t.perfectPops == s.perfectPops)
      && (b >= 0 && s.items[b].kind == Hazard ==>
            t.partyMeter == Clamp(s.partyMeter + 5, 0, MeterMax) && t.feedback == HazardLines[line]
            && t.perfectPops == s.perfectPops)
      && (b >= 0 && s.items[b].kind == Good && Distance(s.items[b], s.clockMs) <= 140 ==>
            t.partyMeter == Clamp(s.partyMeter + 12, 0, MeterMax) && t.feedback == SuccessLines[line]
            && t.perfectPops == s.perfectPops + [Flash(s.lastId + 1, s.clockMs)] && t.lastId == s.lastId + 1)
      && (b >= 0 && s.items[b].kind == Good && Distance(s.items[b], s.clockMs) > 140 ==>
            t.partyMeter == Clamp(s.partyMeter + 9, 0, MeterMax) && t.feedback == SuccessLines[line]
            && t.perfectPops == s.perfectPops)
  {
    var b := BestIndex(s.items, s.clockMs, lane, source);
    var s1 := Flashed(Selected(s, b), lane);
    assert s1.partyMeter == s.partyMeter && s1.perfectPops == s.perfectPops && s1.lastId == s.lastId
      && s1.clockMs == s.clockMs && s1.laneFlashUntil == s.laneFlashUntil[lane := s.clockMs + LaneFlashMs];
  }

  /** Phase gating of the meter: in the rhythm phase a meter of 100 or more
      ends the phase, empties the items and shows the pop-off text. */
  lemma MeterEndsRhythm(s: State, lane: Lane, source: Source, line: nat)
    requires Valid(s) && s.phase == Rhythm && line < 3
    ensures var t := ActionState(s, lane, source, line);
      && (t.partyMeter >= MeterMax <==> t.phase == PopOff)
      && (t.phase == PopOff ==> t.items == [] && t.feedback == PopOffText)
      && t.phase != Victory && t.phase != Launch
  {
  }

  /** Each pop-off tap adds one, never beyond 16; the 16th tap wins. */
  lemma PopoffCounts(s: State, lane: Lane, source: Source, line: nat)
    requires Valid(s) && s.phase == PopOff && line < 3
    ensures var t := ActionState(s, lane, source, line);
      && t.popoffTaps == s.popoffTaps + 1 && t.popoffTaps <= PopoffTargetTaps
      && (t.phase == Victory <==> s.popoffTaps + 1 == PopoffTargetTaps)
      && (t.phase == Victory ==> t.feedback == VictoryText)
      && (t.phase != Victory ==> t.phase == PopOff)
      && t.sparkles == s.sparkles + [Flash(s.lastId + 1, s.clockMs)]
  {
  }

  function PhaseRank(p: Phase): int {
    match p
    case Launch => 0
    case Rhythm => 1
    case PopOff => 2
    case Victory => 3
  }

  /** The effects pass never changes the phase of a state whose meter is not
      full: the expiry pass only lowers the meter. */
  lemma EffectsKeepPhase(s: State, hazardLane: nat -> Lane, line: nat)
    requires s.nextBeat == s.beatCount * BeatMs && line < |HazardLines|
    requires s.phase == Rhythm ==> s.partyMeter < MeterMax
    ensures Effects(s, hazardLane, line).phase == s.phase
  {
    var s1 := SpawnStep(s, hazardLane);
    assert s1.phase == s.phase && s1.partyMeter == s.partyMeter;
    var s2 := CullStep(s1, line);
    assert s2.phase == s.phase && (s.phase == Rhythm ==> s2.partyMeter < MeterMax);
  }

  /** A tick or a time step never changes the phase. */
  lemma ClockKeepsPhase(s: State, step: Step, hazardLane: nat -> Lane, line: nat)
    requires Valid(s) && line < |HazardLines|
    ensures TickState(s, hazardLane, line).phase == s.phase
    ensures AdvanceState(s, step, hazardLane, line).phase == s.phase
  {
    if s.phase != Launch {
      EffectsKeepPhase(Moved(s, TickMs), hazardLane, line);
    }
    if step.Finite? && step.ms > 0 {
      EffectsKeepPhase(Moved(s, step.ms), hazardLane, line);
    }
  }

  /** An action or a pointer press never returns to an earlier phase. */
  lemma ActionsMoveForward(s: State, lane: Lane, source: Source, x: real, line: nat)
    requires line < 3
    ensures PhaseRank(ActionState(s, lane, source, line).phase) >= PhaseRank(s.phase)
    ensures PhaseRank(PointerState(s, x, line).phase) >= PhaseRank(s.phase)
  {
    if s.phase == Rhythm {
      RhythmActionFrame(s.(playerLane := lane), lane, source, line);
      RhythmActionFrame(s.(playerLane := ScreenLane(x)), ScreenLane(x), Tap, line);
    }
  }
}
