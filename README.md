# The Full Weasel — a verified model of the game core

"The Full Weasel" is a browser rhythm game written in React. Items fall
down three lanes on a 650 ms beat. The player taps lanes, or swipes up for
hazards, to fill a party meter. A full meter starts a pop-off finale of 16
taps, and the finale ends on a victory screen. This project models, in
Dafny, three parts of the repository:

- `src/App.jsx`, the game itself. It covers:
  - the id factory and `pickRandomIndex`;
  - the clock interval and `advanceTime`;
  - the beat spawner, the expiry pass, the hit-reaction and decoration expiry, and the meter check;
  - `startGame`, `performRhythmAction`, `runPopoffTap` and `performAction`;
  - the pointer and touch handlers.
- `scripts/prepare-assets.mjs`: `pickEvenlySpaced`, the choice of fallback background frames, and the two rejected-asset lists of the build report.
- `public/sw.js`: the service worker's cache-first classifier, the activation clean-up, and the `cacheFirst` lookup.

The modules follow the source:

| file | module | what it holds |
|---|---|---|
| `common.dfy` | `Common` | `Option`, `clamp`, the keep-what-is-not-in-a-set filter shared by the script and the worker |
| `game_rules.dfy` | `GameRules` | the game's values (items, lanes, phases, constants) and its rules as pure functions, with lemmas |
| `simulation.dfy` | `Simulation` | the component as a state machine over a `State` value, and the invariant every input keeps |
| `app.dfy` | `App` | the component as an object: class `Game` with one field per piece of React state or ref, and the scan loops |
| `prepare_assets.dfy` | `PrepareAssets` | even spacing, the fallback selection, the rejected lists |
| `service_worker.dfy` | `ServiceWorker` | the request classifier, activation, and `cacheFirst` over a map of caches |

Every method of class `Game` is proved to change the fields exactly as a
transition function of `Simulation` changes a `State`. The properties
lemmas prove about the transitions therefore hold of the object. The
properties include:

- the invariant `Valid`;
- ticks and `advanceTime` never lower the clock (`ClockGrows`); starting a round resets it to 0 (`StartResets`);
- each beat is spawned once;
- a tap resolves at most one item;
- the scoring rules;
- the phase order.

### How React is read

The model reads React's behaviour as follows:

- **Effects.** After every change of the clock, and after `startGame`, the
  effects run once, in declaration order:
  1. spawn the due beats;
  2. cull expired items;
  3. expire the hit reaction;
  4. expire decorations;
  5. check the meter.

  The meter check also runs after every action, on the render that
  follows.
- **Updaters.** Functional updaters (`setItems(fn)`, `setPartyMeter(fn)`)
  are applied at once, in call order.
- **Rendered values.** A plain state value that an effect reads is the
  rendered one: the hit-reaction effect compares the clock with the value
  of `hitReactionAt` from before the pass.

### Inputs from outside

The model takes its random draws, the network and the browser as inputs:

- The hazard lane of beat `b` is `hazardLane(b)`.
- The index `choice` draws from a three-line text pool is `line < 3`.
- The draws of `pickRandomIndex` are a sequence.
- The network's answer to a request is a `FetchResult`.
- The worker's own origin is `selfOrigin`.
- Item times are integer milliseconds. The two fall-progress thresholds,
  `progress > 1.08` and `progress < 1.28` with `progress = (clock - spawnMs) / 2500`,
  are exactly `clock - spawnMs > 2700` and `clock - spawnMs < 3200`
  (`GameRules.ProgressThresholds`).

### Scope of the game loop

The component as written has:

- a single rhythm phase, between the launch screen and the pop-off finale;
- a fixed 33 ms tick;
- `advanceTime` steps of any positive finite size, applied whole;
- a hazard on every third beat, whatever is already on screen.

## Model

| member | source | states |
|---|---|---|
| `Common.Clamp` | src/App.jsx:48 | `Math.max(min, Math.min(max, value))`: within `[min, max]` when `min <= max`; the value itself when inside; `min` below it, `max` above it; `min` when `min > max` (also `clamp` at scripts/prepare-assets.mjs:579-581) |
| `Common.Exclude` | scripts/prepare-assets.mjs:521-523 | `filter(x => !drop.has(x))`: exactly the elements outside `drop`; never longer than the input |
| `Common.ExcludeAppend` | scripts/prepare-assets.mjs:529-530 | filtering distributes over concatenation, so survivors keep their relative order |
| `Common.ExcludeNoDup` | scripts/prepare-assets.mjs:529-530 | filtering a list without repeats gives a list without repeats |
| `GameRules.ProgressThresholds` | src/App.jsx:327-334 | the real-valued progress thresholds 1.08 and 1.28 are exactly the integer comparisons with 2700 ms and 3200 ms |
| `GameRules.Culled` | src/App.jsx:324-343 | the list the expiry loop builds holds only input items that are kept, and is never longer |
| `GameRules.CullPrefixStep` | src/App.jsx:326-342 | one more loop iteration appends the item when kept, and sets the flag of its kind when it expired unresolved |
| `GameRules.CulledKeepsAll` | src/App.jsx:326-342 | every kept item survives the pass |
| `GameRules.CulledAppend` | src/App.jsx:326-342 | the pass distributes over concatenation, so survivors keep their order |
| `GameRules.CulledIdsIncreasing` | src/App.jsx:326-342 | increasing ids stay increasing after the pass |
| `GameRules.NumberedAppend` | src/App.jsx:287-306 | numbering a concatenation continues the second part where the first stopped |
| `GameRules.NextBeatCount` | src/App.jsx:284-312 | the beat cursor ends past the clock, and its last step was not past it |
| `GameRules.NextBeatCountUnique` | src/App.jsx:284-312 | exactly one count meets that description |
| `GameRules.SpawnedStep` | src/App.jsx:284-312 | spawning beats up to `until` is the earlier beats followed by beat `until - 1`, numbered where they stop |
| `GameRules.SpawnedIds` | src/App.jsx:287-304 | the spawner hands out consecutive ids |
| `GameRules.SpawnedShape` | src/App.jsx:285-306 | every spawned item sits on a beat of the range and is unresolved; cheese goes left on even beats and tea right on odd ones; a hazard only comes on a beat with `beat % 3 == 2`, in the drawn lane |
| `GameRules.SpawnedSplit` | src/App.jsx:284-312 | spawning a range of beats is spawning its two halves in turn |
| `GameRules.FirstBeat` | src/App.jsx:284-312 | at clock 0 with both cursors at 0, only beat 0 is due: one cheese in the left lane with the next id |
| `GameRules.SpawnedTimes` | src/App.jsx:286-306 | items of earlier beats have earlier times, and items of later beats later times |
| `GameRules.SpawnedHasEveryBeat` | src/App.jsx:284-312 | no beat is skipped or doubled: the spawned list is the earlier beats, then exactly this beat's items, then the later beats |
| `GameRules.SpawnUntilCatchesUp` | src/App.jsx:284-312 | the spawner loop in closed form: both cursors end at `NextBeatCount`, and the list gains exactly the items of the beats in between, in beat order |
| `GameRules.BestIndex` | src/App.jsx:713-741 | the scan's result is -1 or the index of a candidate |
| `GameRules.BestIndexPrefixStep` | src/App.jsx:716-741 | one more iteration makes the item the best exactly when it is a candidate strictly nearer than the best so far |
| `GameRules.BestIndexIsBest` | src/App.jsx:713-741 | the scan finds a nearest candidate: unresolved, within 430 ms inclusive, and in the right lane (a hazard needs the centre lane or a swipe); the first one wins a tie; -1 when there is none |
| `GameRules.BestUnique` | src/App.jsx:713-741 | the selection rule singles out one index |
| `GameRules.Resolve` | src/App.jsx:743-750 | the resolved item is marked resolved at the current clock, and nothing else changes |
| `GameRules.TapScoring` | src/App.jsx:762-775 | a tap earns exactly one of three awards: 5 exactly for a hazard, 12 exactly for a good item at most 140 ms from its landing time, 9 exactly for any other good item; the clamped meter never drops and stays within 100 |
| `GameRules.Unexpired` | src/App.jsx:367-370 | the decoration filter keeps exactly the entries younger than their life |
| `GameRules.UnexpiredAppend` | src/App.jsx:367-370 | the decoration filter distributes over concatenation, so surviving entries keep their order |
| `GameRules.UnexpiredKeepsYoung` | src/App.jsx:367-370 | a list of young entries is left as it is |
| `GameRules.ScreenLaneOrdered` | src/App.jsx:801-803 | the lane follows the pointer from left to right, and both boundaries (33 and 66) belong to the centre |
| `Simulation.Initial` | src/App.jsx:89-112 | the mount state is on the launch screen, with clock, meter and items at zero and the id factory at 1 |
| `Simulation.InitialValid` | src/App.jsx:89-112 | the mount state meets the invariant |
| `Simulation.SpawnedWellFormed` | src/App.jsx:279-314 | appending spawned beats keeps ids increasing and issued, and all items before the cursor |
| `Simulation.SpawnStepWellFormed` | src/App.jsx:279-314 | the spawner effect keeps well-formedness and the cursors in step, leaves the rhythm-phase clock before the next beat, and changes nothing else |
| `Simulation.CullStepKeeps` | src/App.jsx:316-356 | after the expiry pass every item is kept; the meter only goes down, and stays at or above 0; only the items, feedback, meter, hit reaction and shake change |
| `Simulation.EffectsValid` | src/App.jsx:279-378 | the effects pass restores the invariant on any state whose clock-independent part is sound |
| `Simulation.MovedValid` | src/App.jsx:269-277 | a positive clock step followed by the effects keeps the invariant |
| `Simulation.TickValid` | src/App.jsx:269-277 | a tick keeps the invariant |
| `Simulation.AdvanceValid` | src/App.jsx:217-222 | `advanceTime` keeps the invariant |
| `Simulation.StartValid` | src/App.jsx:679-693 | `startGame` keeps the invariant |
| `Simulation.RhythmActionFrame` | src/App.jsx:708-776 | a rhythm action touches the items only through the selected index; phase, clock, cursors, taps, sparkles, hit reaction, shake, lane and touch stay the same; ids only move forward; the meter stays in range |
| `Simulation.SelectedKeeps` | src/App.jsx:743-750 | resolving the selected item keeps every item kept and the list well formed |
| `Simulation.RhythmActionWellFormed` | src/App.jsx:708-776 | after a rhythm action the items are well formed and kept |
| `Simulation.RhythmValid` | src/App.jsx:778-787 | a rhythm action and the meter check that follows keep the invariant |
| `Simulation.ActionValid` | src/App.jsx:778-795 | `performAction` keeps the invariant in every phase |
| `Simulation.PointerValid` | src/App.jsx:797-805 | a pointer press keeps the invariant |
| `Simulation.TouchValid` | src/App.jsx:807-823 | a touch start and a touch end keep the invariant |
| `Simulation.ClockGrows` | src/App.jsx:269-277 | a tick adds 33 ms outside the launch screen; `advanceTime` adds a positive finite step and ignores any other, so neither lowers the clock |
| `Simulation.EffectsKeepClock` | src/App.jsx:279-378 | the effects read the clock but never set it |
| `Simulation.LaunchIsIdle` | src/App.jsx:270-272 | on the launch screen ticks, actions and pointer presses change nothing |
| `Simulation.VictoryIgnoresInput` | src/App.jsx:798-800 | on the victory screen actions and pointer presses change nothing, and a touch end only clears the recorded start |
| `Simulation.StartResets` | src/App.jsx:679-693 | after `startGame` and its effects, the state is reset: rhythm phase, and clock, meter and taps at 0; the player is in the centre with the start text; the items are exactly beat 0's cheese with the next id; the cursors are at beat 1; the hit reaction and the shake are untouched |
| `Simulation.RestartedSpawn` | src/App.jsx:679-693 | the spawner pass after a restart emits beat 0 alone |
| `Simulation.SpawnCatchesUp` | src/App.jsx:284-312 | the spawner effect leaves the cursor past the clock; every beat from the old cursor up to the clock is spawned; the new items are exactly those beats' items, in order |
| `Simulation.CullEffects` | src/App.jsx:316-356 | the items become the culled list. An expired hazard costs 7 points (clamped at 0), sets the hit reaction to now and the shake to now + 260, and shows a hazard line. An expired good item alone only shows the "keep the groove" text. Nothing else changes. |
| `Simulation.HitReactionExpires` | src/App.jsx:345-365 | after an effects pass the hit reaction is at most 260 ms old; one already older when the pass began is cleared even if a hazard strikes in the same pass; otherwise it is what the expiry pass left |
| `Simulation.TapResolvesAtMostOne` | src/App.jsx:708-753 | a tap resolves exactly the best candidate or nothing; the list keeps its length and every other entry |
| `Simulation.TapScores` | src/App.jsx:755-775 | the lane flashes for 180 ms. With no candidate: "Feel the groove!" and the meter unchanged. A hazard: +5 and a hazard line. A good item within 140 ms: +12, a success line and a perfect pop with a fresh id. Otherwise: +9. The meter stays in [0, 100]. |
| `Simulation.MeterEndsRhythm` | src/App.jsx:372-378 | after a rhythm action the phase becomes pop-off exactly when the meter reached 100, with no items and the pop-off text |
| `Simulation.PopoffCounts` | src/App.jsx:695-706 | a pop-off tap adds a sparkle with a fresh id and one tap, never beyond 16; victory comes exactly on the 16th, with the victory text |
| `Simulation.EffectsKeepPhase` | src/App.jsx:279-378 | the effects never change the phase of a state whose meter is not full |
| `Simulation.ClockKeepsPhase` | src/App.jsx:269-277 | ticks and time steps never change the phase |
| `Simulation.ActionsMoveForward` | src/App.jsx:778-805 | actions and pointer presses never return to an earlier phase |
| `App.IdFactory.Next` | src/App.jsx:51-57 | each call returns one more than the last value |
| `App.FirstOther` | src/App.jsx:63-66 | the first draw that differs from `exclude`, with every earlier draw equal to it |
| `App.PickRandomIndex` | src/App.jsx:59-68 | a length of at most 1 gives 0; otherwise the result is in range, differs from `exclude`, and is the first such draw |
| `App.CullItems` | src/App.jsx:324-343 | the loop builds exactly `Culled`, and each flag is set exactly when an item of its kind expired unresolved |
| `App.FindBest` | src/App.jsx:713-741 | the loop ends with `BestIndex`, which `IsBest` characterises |
| `App.Game.constructor` | src/App.jsx:71-112 | the object starts as the mount state, which is valid |
| `App.Game.SpawnBeat` | src/App.jsx:285-312 | one turn of the spawner loop appends that beat's numbered items and moves both cursors by one beat |
| `App.Game.SpawnLoop` | src/App.jsx:284-313 | the loop ends where `SpawnUntil` does |
| `App.Game.SpawnDueBeats` | src/App.jsx:279-314 | the spawner effect moves the fields as `SpawnStep` |
| `App.Game.ApplySweep` | src/App.jsx:344-349 | the kept list replaces the items; a miss sets the miss text |
| `App.Game.ApplyHazardHit` | src/App.jsx:350-355 | a hazard line, the clamped penalty, the hit reaction and the shake |
| `App.Game.CullExpired` | src/App.jsx:316-356 | the expiry effect moves the fields as `CullStep` |
| `App.Game.ExpireHitReaction` | src/App.jsx:358-365 | the hit reaction is cleared more than 260 ms after the rendered hit |
| `App.Game.ExpireFlashes` | src/App.jsx:367-370 | perfect pops live 360 ms and sparkles 900 ms |
| `App.Game.CheckMeter` | src/App.jsx:372-378 | the meter effect moves the fields as `PhaseCheck` |
| `App.Game.RunEffects` | src/App.jsx:279-378 | the effects in order move the fields as `Effects` |
| `App.Game.Elapse` | src/App.jsx:274 | a clock step, then the effects |
| `App.Game.MoveClock` | src/App.jsx:274 | only the clock moves, by the step |
| `App.Game.Tick` | src/App.jsx:269-277 | a tick moves the fields as `TickState` and keeps the invariant |
| `App.Game.AdvanceTime` | src/App.jsx:217-222 | `advanceTime` moves the fields as `AdvanceState` and keeps the invariant |
| `App.Game.ClearRound` | src/App.jsx:680-686 | clock, meter, items, taps and lane are reset |
| `App.Game.Rewind` | src/App.jsx:688-691 | the cursors, the start text and the rhythm phase |
| `App.Game.StartGame` | src/App.jsx:679-693 | `startGame` and its effects move the fields as `StartState` and keep the invariant |
| `App.Game.PerformRhythmAction` | src/App.jsx:708-776 | the handler moves the fields as `RhythmAction` |
| `App.Game.ResolveSelected` | src/App.jsx:743-750 | the selected item, if any, is marked resolved now |
| `App.Game.FlashLane` | src/App.jsx:659-661 | the lane is highlighted until now + 180 |
| `App.Game.Score` | src/App.jsx:762-775 | the scoring moves the fields as `Scored` |
| `App.Game.SpawnPerfect` | src/App.jsx:663-665 | a perfect pop with a fresh id at the current time |
| `App.Game.RunPopoffTap` | src/App.jsx:695-706 | a sparkle, then the tap count |
| `App.Game.SpawnSparkle` | src/App.jsx:667-677 | a sparkle with a fresh id at the current time |
| `App.Game.CountTap` | src/App.jsx:697-705 | one more tap; the 16th shows the victory text and ends the game |
| `App.Game.PerformAction` | src/App.jsx:778-795 | `performAction` and the meter check move the fields as `ActionState` and keep the invariant |
| `App.Game.MoveTo` | src/App.jsx:783-785 | only the player's lane changes |
| `App.Game.PointerDown` | src/App.jsx:797-805 | a pointer press moves the fields as `PointerState` and keeps the invariant |
| `App.Game.TouchStart` | src/App.jsx:807-811 | the first touch's position is recorded, if there is one |
| `App.Game.TouchEnd` | src/App.jsx:813-823 | a swipe up of more than 45 px acts on the centre lane; the recorded start is then cleared |
| `App.Game.ForgetTouch` | src/App.jsx:822 | only the recorded touch start is cleared |
| `PrepareAssets.RoundedIndex` | scripts/prepare-assets.mjs:295 | every picked index lies in `[0, lastIndex]` |
| `PrepareAssets.RoundedIndexRounds` | scripts/prepare-assets.mjs:295 | the integer formula equals `Math.round(i * lastIndex / (t - 1))`, the floor of the exact quotient plus one half |
| `PrepareAssets.RoundedIndexEnds` | scripts/prepare-assets.mjs:294-297 | the first pick is index 0 and the last is `lastIndex` |
| `PrepareAssets.RoundedIndexStep` | scripts/prepare-assets.mjs:294-297 | with more items than picks, consecutive indices strictly increase |
| `PrepareAssets.RoundedIndexIncreasing` | scripts/prepare-assets.mjs:294-297 | the picked indices strictly increase |
| `PrepareAssets.Dedup` | scripts/prepare-assets.mjs:298 | `[...new Set(picks)]`: no repeats, the same elements, never longer |
| `PrepareAssets.DedupFirst` | scripts/prepare-assets.mjs:298 | the set keeps the first value first |
| `PrepareAssets.DedupDistinct` | scripts/prepare-assets.mjs:298 | a list without repeats passes through unchanged, in order |
| `PrepareAssets.PicksDistinct` | scripts/prepare-assets.mjs:293-297 | distinct items give distinct picks |
| `PrepareAssets.PickEvenlySpaced` | scripts/prepare-assets.mjs:285-299 | the loop and the set compute `EvenlySpaced`; a short input is copied; a target of at most 1 gives the first item |
| `PrepareAssets.EvenlySpacedShape` | scripts/prepare-assets.mjs:285-299 | the result holds input items only; it starts with the first item; when the input is longer than the target, it has no repeats and at most `max(t, 1)` items |
| `PrepareAssets.EvenlySpacedExact` | scripts/prepare-assets.mjs:292-298 | with distinct items, more than requested, and at least two requested: exactly `t` items come back, pick `i` at the rounded index, the indices strictly increasing (input order kept), from the first item to the last |
| `PrepareAssets.FallbackSelection` | scripts/prepare-assets.mjs:418-425 | of distinct candidates, fewer than 8 all ship, up to 12 all ship, and beyond 12 exactly 12 ship; they are distinct candidates, from the first to the last |
| `PrepareAssets.RejectionsRoundTrip` | scripts/prepare-assets.mjs:524-527 | the report holds one line per given source, in the given order, so reading their sources back gives that list; every line carries the given reason |
| `PrepareAssets.RejectedRawExact` | scripts/prepare-assets.mjs:520-527 | the rejected raw list names exactly the raw files outside the chosen set, in listing order, each with the payload reason |
| `PrepareAssets.FallbackPartition` | scripts/prepare-assets.mjs:418-425 | every candidate is either shipped or rejected, not both, and nothing else is in either (the rejected list is built at 529-534) |
| `PrepareAssets.FallbackCount` | scripts/prepare-assets.mjs:529-534 | with distinct names, the shipped and rejected counts add up to the candidates |
| `PrepareAssets.RejectedPngLines` | scripts/prepare-assets.mjs:529-534 | each rejected frame line carries `assets_backgrounds/` plus a candidate that was not selected, and the selection reason |
| `ServiceWorker.CacheFirstExactly` | public/sw.js:27-54 | cache-first exactly for a same-origin GET that is not media and is a navigation, a script, a style, a sprite or one of the two manifests; never for another method, another origin, or media |
| `ServiceWorker.MediaBeatsNavigation` | public/sw.js:37-47 | the media check comes first: a same-origin GET navigation is cache-first exactly when it is not media, so opening any `.mp3` or `.mp4` path as a page goes to the network |
| `ServiceWorker.SpritesAreCacheFirst` | public/sw.js:38-52 | a same-origin GET of any path under `/assets/sprites/`, or of either manifest, is cache-first whatever its mode and its non-media destination, unless the path ends in `.mp3` or `.mp4` |
| `ServiceWorker.StaleCacheKeys` | public/sw.js:18-19 | exactly the keys other than `full-weasel-v2` |
| `ServiceWorker.CacheHit` | public/sw.js:58-61 | a hit is returned and nothing is stored |
| `ServiceWorker.CacheMissFetched` | public/sw.js:62-67 | on a miss, the network's response is returned; it is stored exactly when ok; no other entry changes |
| `ServiceWorker.CacheMissOffline` | public/sw.js:68-76 | a network error stores nothing; a navigation falls back to the cached `/` if present; everything else fails |
| `ServiceWorker.CachedStaysServed` | public/sw.js:56-77 | once a response is cached, the same request keeps being served it, whatever the network does |
| `ServiceWorker.CacheStorage.Keys` | public/sw.js:16 | every cache name, once each |
| `ServiceWorker.CacheStorage.Activate` | public/sw.js:14-25 | after activation only `full-weasel-v2` remains, unchanged, if it was there |
| `ServiceWorker.CacheStorage.DeleteAll` | public/sw.js:17-21 | the named caches are gone and nothing else changes |
| `ServiceWorker.CacheStorage.Delete` | public/sw.js:20 | that cache is gone and the others stay as they are |
| `ServiceWorker.CacheStorage.Open` | public/sw.js:57 | the worker's cache, created empty if absent |
| `ServiceWorker.CacheStorage.CacheFirst` | public/sw.js:56-77 | the result and the new cache are those of `CacheFirstOutcome` and `CacheAfter`, with the lookup in the opened cache and the fallback at `selfOrigin + "/"` |
| `ServiceWorker.CacheStorage.HandleFetch` | public/sw.js:79-84 | a request that is not cache-first is left to the browser and changes nothing; any other is answered by `cacheFirst` |

## Left out

- Rendering: item positions, confetti, `showSlam`, `playerX`, CSS classes and the text snapshot for testing are left out. They do not change game state.
- Audio, the background video and slideshow, the manifest loading, the offline hint, PWA install handling and gesture suppression are left out. They are browser I/O.
- `startGame` also clears confetti and `showSlam` and starts the music. These are presentation and I/O and are not modelled.
- React scheduling is simplified. In React, an updater passed to `setItems` runs during that call only when no other update is pending. `performRhythmAction` and the expiry effect read the flags and the selected item that the updater sets, so they count on the updater having run. The model runs every updater at once, which is what the code evidently relies on.
- Clock steps: `advanceTime` with a fractional number of milliseconds is not modelled. Time is integer milliseconds. Any non-finite argument is `NotFinite`.
- `App.PickRandomIndex`: the random draws are a finite sequence that is assumed to hold a value different from `exclude`. The source's loop ends only with probability one, and the model does not claim more.
- `App.Game.PerformAction`: the check `PLAYER_X[lane] !== undefined` always holds in the model, since a `Lane` is one of the three lanes.
- Swipes and pointers: positions are reals, and the pointer's percentage of the width is an input. The bounding-box arithmetic is not modelled.
- The prepare-assets script's file-system work, image generation, copying and report writing are left out. So are the name filters on `.png` and `.mp4` files, `path.relative`, and the sort. The candidates are given, as the sorted listing of a directory, and so are distinct.
- `Math.round` works on a floating-point quotient. The model uses the exact rational quotient. For these small integers, floating-point division cannot move a value across a rounding boundary.
- The service worker's install handler (precaching the core files) and `skipWaiting`/`clients.claim` are left out. The real Cache API matching rules (`Vary`, query options) are left out too: a cache is a map from request URL to response.
- The worker's `cache.put` is not awaited. The model stores the response before `cacheFirst` returns.
- URL parsing is left out: a request carries its origin and pathname.
