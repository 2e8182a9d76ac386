# Character service and `.env` provider: a Dafny model

This project models the core of a Blazor front end for the Artifacts MMO
game:

- the per-character bookkeeping of `CharacterService`;
- the line parser of the `.env` configuration provider.

`CharacterService` keeps six dictionaries keyed by character name: the
cached snapshot, the cooldown `(TotalSeconds, RemainingSeconds)`, the
progress-bar width, the auto-gather flag, and one for each of the two timers. It also keeps an
ordered list of known names. The model covers the following behaviour:

- the constructor seeds three demo characters;
- the roster fetch merges names and positions;
- the position refresh patches one character;
- the progress timer counts a cooldown down and redraws its bar;
- move, gather and craft apply the cooldown the server returns, and a gather
  rejected with status 497 switches auto-gather off;
- the auto-gather loop gathers while its flag stays set;
- the single-character fetch stores the decoded snapshot (zero-quantity items
  dropped) or falls back to generated demo data;
- the read-only queries answer from the dictionaries.

Every remote call is replaced by its result, written as a datatype:

- `Outcome` for an action: `Ok(cooldown)`, `Rejected(status)` or `Threw`;
- `RosterResult` for the roster fetch;
- `FetchResult` for the single-character fetch.

A rejected fetch carries `tokenExpired`: it says whether the response text
contains "Token is expired".

## Layout

| file | module | contents |
|---|---|---|
| `wrappers.dfy` | `Wrappers` | `Option` |
| `cooldowns.dfy` | `Cooldowns` | the cooldown pair, one tick, the bar width a tick writes, and the countdown after a reset |
| `characters.dfy` | `Characters` | the snapshot record, the inventory filter, and the demo-data generator |
| `service_spec.dfy` | `ServiceSpec` | the whole service as a value `ServiceState`, its invariant `Inv`, one transition function per operation, and the lemmas about them |
| `character_service.dfy` | `Service` | the class `CharacterService` |
| `env_config.dfy` | `EnvConfig` | splitting on `=`, the fold of the lines into `Data`, and the class `EnvConfigurationProvider` |

`Service.CharacterService` has one field per dictionary or list of the source.
The timer dictionaries are represented by their key set `timers`. Each method
mutates the fields the way the source does: loops over the names and the
roster, dictionary overwrites, and a `while` loop re-reading the flag. Each
method then ensures `State() == F(old(State()), ...)`, where `F` is the
`ServiceSpec` function whose properties are proved as lemmas. The getters are
functions.

The invariant `Inv` has these parts:

- the name list has no duplicates;
- every listed name is non-empty and has a snapshot;
- every name with timers is listed and has a cooldown and a flag;
- the cooldown and width maps have the same keys;
- every cooldown has remaining ≤ total;
- every width lies in [0, 100).

The invariant deliberately does not require a snapshot to come with a
cooldown. The demo fallback and a successful single fetch can add a snapshot
for a name the roster never introduced.

The progress width is computed as the code computes it: from the remaining
seconds before the decrement. It therefore trails the counter by one tick.
After a reset to 10 and four ticks the bar is at 30 percent, not 40. A finished
countdown freezes the bar at `(t - 1) / t` of its length.

## Model

| member | source | states |
|---|---|---|
| Cooldowns.Tick | Components/Services/CharacterService.cs:155-157 | a running cooldown loses exactly one second, keeps its total and stays ≥ 0; a finished one is unchanged; remaining ≤ total is preserved |
| Cooldowns.TickWidth | Components/Services/CharacterService.cs:158 | for 0 < remaining ≤ total the width is defined (total > 0) and lies in [0, 100) |
| Cooldowns.TickWidthElapsed | Components/Services/CharacterService.cs:158 | the tick that finds t − k of t seconds left writes k / t · 100: the pre-decrement value |
| Cooldowns.Elapse | Components/Services/CharacterService.cs:153-161 | one timer firing: tick and new width while running, otherwise both unchanged; consistency kept |
| Cooldowns.Elapses | Components/Services/CharacterService.cs:153-161 | any number of firings keeps remaining ≤ total and the total |
| Cooldowns.ElapsesCountdown | Components/Services/CharacterService.cs:155-157 | after a reset to (t, t), n firings leave t − n while n ≤ t and 0 after; locked exactly while n < t |
| Cooldowns.ElapsesWidthRunning | Components/Services/CharacterService.cs:158 | after the n-th firing (n ≤ t) the width is (n − 1) / t · 100, one tick behind |
| Cooldowns.ElapsesWidthFrozen | Components/Services/CharacterService.cs:153-158 | once the countdown is over the width stays at (t − 1) / t · 100 |
| Cooldowns.TenSecondCooldown | Components/Services/CharacterService.cs:153-158 | reset to 10, four firings: (10, 6) and 30 percent; ten firings: (10, 0) and 90 percent |
| Characters.Blank | Components/Services/CharacterService.cs:334-336 | a new snapshot carries only the name, at position (0, 0), with an empty inventory |
| Characters.FilterInventory | Components/Services/CharacterService.cs:292-297 | exactly the items with positive quantity are kept, never more items than before |
| Characters.FilterInventoryAppend | Components/Services/CharacterService.cs:292-297 | filtering distributes over concatenation, so the order of the kept items is preserved |
| Characters.FilterInventoryKeepsPositive | Components/Services/CharacterService.cs:297 | an inventory of positive quantities passes unchanged |
| Characters.Draw | Components/Services/CharacterService.cs:339 | a draw seeded from the name lies in [lo, hi) |
| Characters.DemoSkill | Components/Services/CharacterService.cs:351-373 | skill level in [1, 30), experience in [100, 1000), cap 1000 |
| Characters.DemoElements | Components/Services/CharacterService.cs:383-395 | the four elemental values lie in [1, 20) |
| Characters.DemoItems | Components/Services/CharacterService.cs:425-433 | six items in slots 1..6 with codes wood, stone, iron_ore, gold_ore, fish, potion and quantities in [1, 50), [1, 50), [1, 30), [1, 20), [1, 15), [1, 5) |
| Characters.DemoProfile | Components/Services/CharacterService.cs:342-395 | every drawn attribute in its range beside its fixed values; Hp < MaxHp = 200, Xp < MaxXp = 10000, each skill's Xp < 1000 |
| Characters.DemoEquipment | Components/Services/CharacterService.cs:398-415 | both utility quantities lie in [1, 10) |
| Characters.Demo | Components/Services/CharacterService.cs:331-437 | name, position and cooldown of the base survive; all ranges, the six-item inventory, Hp < MaxHp, Xp < MaxXp, skill Xp < cap, TaskProgress < TaskTotal = 10 |
| Characters.DemoDependsOnlyOnName | Components/Services/CharacterService.cs:339-432 | two bases give the same generated attributes: the output is a function of the name alone |
| Characters.DemoIdempotent | Components/Services/CharacterService.cs:331-437 | generating over a generated snapshot changes nothing |
| Characters.DemoInventorySurvivesFilter | Components/Services/CharacterService.cs:425-433 | the demo inventory already passes the positive-quantity filter |
| ServiceSpec.Initial | Components/Services/CharacterService.cs:24-46 | names pancake, Izzy, Goober in that order; each has its seeded snapshot, cooldown (0, 0), width 0, flag off and timers; no other key |
| ServiceSpec.InitialInv | Components/Services/CharacterService.cs:28-45 | the constructed state satisfies the invariant (the three names are distinct) |
| ServiceSpec.SeededInv | Components/Services/CharacterService.cs:39-45 | any state laid out as the constructor leaves it satisfies the invariant |
| ServiceSpec.ProgressTick | Components/Services/CharacterService.cs:153-161 | the named character's pair goes through one firing; nothing else changes; an unlocked or unknown name changes nothing; the invariant is kept |
| ServiceSpec.ApplyAction | Components/Services/CharacterService.cs:439-544 | success with c sets (c, c), width 0, locked iff c > 0; a rejection or exception leaves all cooldowns and widths; only a gather rejected with 497 clears the flag (whatever it was); no other character is touched; the invariant is kept |
| ServiceSpec.MergeEntry | Components/Services/CharacterService.cs:70-100 | one roster entry: names only grow, by the entry's name if non-empty; every other name is untouched |
| ServiceSpec.MergeEntryNoDuplicates | Components/Services/CharacterService.cs:72-75 | the `Contains` guard keeps the list duplicate-free |
| ServiceSpec.MergeEntryInv | Components/Services/CharacterService.cs:70-100 | one merge step keeps the invariant |
| ServiceSpec.MergeEntryKnown | Components/Services/CharacterService.cs:98-103 | a known character only gets the entry's position; cooldown, width, flag and timers are unchanged |
| ServiceSpec.MergeEntryNew | Components/Services/CharacterService.cs:78-91 | a new character gets a blank snapshot at the entry's position, (0, 0), width 0, flag off and timers |
| ServiceSpec.MergeRoster | Components/Services/CharacterService.cs:68-101 | the entries merged in order keep the invariant |
| ServiceSpec.MergeNames | Components/Services/CharacterService.cs:68-101 | the old list is a prefix of the new one, it stays duplicate-free, and it holds exactly the old names plus the non-empty roster names |
| ServiceSpec.MergeNamesInRosterOrder | Components/Services/CharacterService.cs:72-75 | merging a roster prefix gives a prefix of the final list: new names are appended in roster order |
| ServiceSpec.MergeUntouched | Components/Services/CharacterService.cs:68-101 | a name the roster does not mention (empty names included) is untouched |
| ServiceSpec.MergeKnown | Components/Services/CharacterService.cs:98-103 | across the whole merge an already known character keeps cooldown, width, flag and timers, and its snapshot changes only in position |
| ServiceSpec.LastMention | Components/Services/CharacterService.cs:68-101 | the index of the last entry carrying the name, with no later one; none exactly when the roster does not mention it |
| ServiceSpec.MergeKnownPosition | Components/Services/CharacterService.cs:70-103 | a known character ends at the position of the last roster entry carrying its name; if none does, its snapshot is unchanged |
| ServiceSpec.MergeFirstSeen | Components/Services/CharacterService.cs:78-91 | a first-seen character ends with a blank snapshot (bar position), (0, 0), width 0, flag off, timers, and a place in the list |
| ServiceSpec.FirstMatch | Components/Services/CharacterService.cs:177-186 | the index of the first entry carrying the name, with no earlier one, or the roster length |
| ServiceSpec.PatchPosition | Components/Services/CharacterService.cs:163-195 | only the named snapshot's position changes, to that of the first matching entry; an unknown name or no match changes nothing |
| ServiceSpec.PopulateDemo | Components/Services/CharacterService.cs:331-437 | only the snapshot map changes, at the one name; the stored snapshot has all demo ranges and the six-item inventory and keeps the old name and position (a new one is named `name` at (0, 0)) |
| ServiceSpec.PopulateDemoTwice | Components/Services/CharacterService.cs:331-437 | falling back twice equals falling back once |
| ServiceSpec.FetchCharacter | Components/Services/CharacterService.cs:197-329 | success stores the decoded snapshot with its inventory passed through `FilterInventory` (only positive quantities); an expired token or exception is the demo fallback; another rejection changes nothing; cooldowns, widths, flags and names never change |
| ServiceSpec.RetryDelay | Components/Services/CharacterService.cs:554-561 | remaining · 1000 ms while a cooldown runs, else 1000 ms; never below one second |
| ServiceSpec.GatherStep | Components/Services/CharacterService.cs:553-561 | one loop pass is the gather action followed by its delay; a successful gather waits its own cooldown |
| ServiceSpec.GatherLoop | Components/Services/CharacterService.cs:549-563 | with the flag off the body never runs; at most one delay per outcome, each ≥ 1000 ms; the invariant is kept |
| ServiceSpec.FirstBlocked | Components/Services/CharacterService.cs:498-501 | the index of the first gather rejected with 497, with none before it |
| ServiceSpec.GatherLoopStopsOnBlocked | Components/Services/CharacterService.cs:547-565 | the loop stops right after the first 497 rejection with the flag off; with none it runs through every outcome and the flag stays on |
| ServiceSpec.AutoGather | Components/Services/CharacterService.cs:547-565 | an unknown name throws (`None`); toggling a set flag off runs no gather; toggling it on runs the loop |
| Service.CharacterService.constructor | Components/Services/CharacterService.cs:24-46 | the new service is `Initial()` and satisfies the invariant |
| Service.CharacterService.InitializeCooldownTracking | Components/Services/CharacterService.cs:39-45 | every listed name gets (0, 0), width 0, flag off and timers |
| Service.CharacterService.InitializeTimersForCharacter | Components/Services/CharacterService.cs:133-146 | only the timer key set gains the name |
| Service.CharacterService.FetchAllCharacters | Components/Services/CharacterService.cs:53-131 | success merges every entry in order (`MergeRoster`); rejection and exception change nothing |
| Service.CharacterService.MergeRosterEntry | Components/Services/CharacterService.cs:68-100 | one loop pass is `MergeEntry` and keeps the invariant |
| Service.CharacterService.UpdateCharacterCoordinates | Components/Services/CharacterService.cs:163-195 | success is `PatchPosition` (the scan stops at the first match); otherwise nothing changes |
| Service.CharacterService.ProgressTimerElapsed | Components/Services/CharacterService.cs:153-161 | the firing is `ProgressTick` and keeps the invariant |
| Service.CharacterService.FetchCharacterData | Components/Services/CharacterService.cs:197-329 | the new state is `FetchCharacter` of the old |
| Service.CharacterService.PopulateDemoCharacterData | Components/Services/CharacterService.cs:331-437 | the new state is `PopulateDemo` of the old |
| Service.OverwriteWithDemo | Components/Services/CharacterService.cs:342-432 | the group-by-group overwrite yields `Demo(name, base)` |
| Service.CharacterService.MoveAction | Components/Services/CharacterService.cs:439-474 | the new state is `ApplyAction` for a move |
| Service.CharacterService.GatherAction | Components/Services/CharacterService.cs:476-509 | the new state is `ApplyAction` for a gather |
| Service.CharacterService.CraftItemAction | Components/Services/CharacterService.cs:511-545 | the new state is `ApplyAction` for a craft |
| Service.CharacterService.GatherIteration | Components/Services/CharacterService.cs:553-562 | one pass of the auto-gather loop is `GatherStep` |
| Service.CharacterService.ToggleAutoGather | Components/Services/CharacterService.cs:547-565 | the final state and the delays waited are `AutoGather` of the old state; an unknown name changes nothing |
| Service.CharacterService.GetCharacterNames | Components/Services/CharacterService.cs:567 | the name list itself; under the invariant: distinct, non-empty names, each with a snapshot |
| Service.CharacterService.GetCharacterData | Components/Services/CharacterService.cs:569-572 | a snapshot exactly when one is cached, and that one |
| Service.CharacterService.GetProgressWidth | Components/Services/CharacterService.cs:574-577 | the stored width, 0 for an unknown name; in [0, 100) under the invariant |
| Service.CharacterService.IsActionButtonsDisabled | Components/Services/CharacterService.cs:579-582 | true exactly when the name has a cooldown with remaining > 0 (then remaining ≤ total) |
| Service.CharacterService.IsAutoGatherEnabled | Components/Services/CharacterService.cs:584-587 | true exactly when the name has a set flag |
| EnvConfig.Segments | EnvConfigurationProvider.cs:14 | at least one segment, none containing `=` |
| EnvConfig.RemoveEmpty | EnvConfigurationProvider.cs:14 | exactly the non-empty segments are kept |
| EnvConfig.RemoveEmptyAppend | EnvConfigurationProvider.cs:14 | dropping empty entries distributes over concatenation, so order and repetitions of the kept segments are preserved |
| EnvConfig.Parts | EnvConfigurationProvider.cs:14 | every part is non-empty and free of `=` |
| EnvConfig.JoinSegments | EnvConfigurationProvider.cs:14 | joining the segments with `=` gives the line back |
| EnvConfig.SegmentsJoin | EnvConfigurationProvider.cs:14 | splitting `=`-free pieces joined by `=` gives the pieces back |
| EnvConfig.KeyValueLine | EnvConfigurationProvider.cs:14-17 | `KEY=VAL` splits into KEY and VAL |
| EnvConfig.EmptySegmentsDropped | EnvConfigurationProvider.cs:14-17 | `=KEY=VAL` and `KEY==VAL` split into KEY and VAL |
| EnvConfig.RejectedLines | EnvConfigurationProvider.cs:14-15 | a line without `=`, `KEY=` and `a=b=c` are not entries |
| EnvConfig.EnvData | EnvConfigurationProvider.cs:12-19 | every stored key and value is non-empty and free of `=` |
| EnvConfig.LastEntryFor | EnvConfigurationProvider.cs:12-17 | the last kept line with the key, with no later one |
| EnvConfig.EnvDataLookup | EnvConfigurationProvider.cs:12-17 | a key is stored iff some kept line has it, and its value is that of the last such line |
| EnvConfig.IgnoredLine | EnvConfigurationProvider.cs:15 | a line that does not split into two parts leaves `Data` unchanged |
| EnvConfig.KeptLine | EnvConfigurationProvider.cs:15-17 | a kept line stores its value under its key and changes no other key |
| EnvConfig.EnvConfigurationProvider.constructor | EnvConfigurationProvider.cs:7-21 | a missing file leaves `Data` empty; otherwise `Data` is the fold of the lines |

## Left out

- HTTP transport: clients, headers, URLs and reading responses. Results
  arrive as `Outcome`, `RosterResult` or `FetchResult`. "Token is expired" in
  the response text is the flag `tokenExpired`.
- JSON decoding: only the positive-quantity filter of the decoded inventory is
  modelled. A decode failure half-way through a roster, which leaves the
  entries before it merged, is not modelled. The whole fetch counts as
  `RosterThrew` instead. Such a failure can also leave a name on the list
  without a snapshot: the name is added before the position of a new entry is
  read. The invariant `Inv` ("every listed name has a snapshot") rules that
  state out, so the model does not capture it.
- Timers: creation, periods, `CharacterTimerElapsed` and `Dispose` are left
  out. Only the key set of the timer dictionaries and the handler bodies are
  modelled.
- Concurrency: timer callbacks, overlapping toggles and actions are not
  interleaved. Calls are sequential.
- Service.CharacterService.ToggleAutoGather: the loop is driven by a finite
  sequence of gather outcomes. The real loop runs until the flag is cleared,
  possibly forever. `Task.Delay` is recorded as the delay chosen, and no timer
  tick is interleaved during it.
- Notifications and the `OnCharactersUpdated` / `OnCooldownUpdated` events:
  a UI side channel with no effect on the state.
- Aliasing: snapshots are values. The source stores and mutates the same
  `CharacterData` object. The model stores the updated value back, which gives
  the same dictionary contents.
- Characters.Draw: the .NET `Random` algorithm and the per-process
  `string.GetHashCode` are foreign. `Draw` is a deterministic stand-in in the
  name and the draw index, and only its range is relied upon.
- `CooldownExpiration` (a `DateTime`), the expanded-character UI state
  (`GetExpandedCharacter` / `SetExpandedCharacter`), `InitializeAsync` and
  `Program.cs` are not part of this model.
- Service.CharacterService.ToggleAutoGather: the delay `RemainingSeconds * 1000`
  is computed on unbounded integers. 32-bit overflow for very long cooldowns
  is not modelled.
- Floating point: widths are `real`. The C# `double` division and its
  rounding are not modelled.
- EnvConfig.EnvConfigurationProvider.constructor: `File.Exists` and
  `File.ReadAllLines` are file I/O. The file is passed in as its lines, or
  `None` when it does not exist. `EnvConfigurationSource.Build` is a one-line
  wrapper.
- EnvConfig.EnvData: keys are plain strings. The case-insensitive key
  comparer of the configuration base class is library behaviour and is not
  modelled.
