/**
 * `CharacterService` as a class: one field per dictionary and list the C#
 * class mutates in place, and one method per operation. Every method is
 * proved to move the abstract value `State()` exactly as the matching
 * transition function of `ServiceSpec` does, so everything proved there
 * about the transitions holds of the class.
 */
module Service {
  import opened Wrappers
  import opened Cooldowns
  import opened Characters
  import opened ServiceSpec

  /** Extending the key list by one name extends a constant map by that name. */
  lemma ConstantMapSnoc<V>(names: seq<string>, name: string, v: V)
    ensures (map n | n in names + [name] :: v) == (map n | n in names :: v)[name := v]
    ensures (set n | n in names + [name]) == (set n | n in names) + {name}
  {
  }

  lemma AppendAssoc<T>(a: seq<T>, b: seq<T>, c: seq<T>)
    ensures a + (b + c) == (a + b) + c
  {
  }

  /**
   * The body of `PopulateDemoCharacterData` on the snapshot object: the
   * attributes are assigned group by group, the identity is kept.
   */
  method OverwriteWithDemo(name: string, base: CharacterData) returns (character: CharacterData)
    ensures character == Demo(name, base)
  {
    character := base;
    character := character.(profile := DemoProfile(name));
    character := character.(equipment := DemoEquipment(name));
    character := character.(task := TaskInfo("Demo Task", "Gathering", Draw(name, 40, 1, 10), 10));
    character := character.(inventoryMaxItems := 20);
    character := character.(inventory := DemoItems(name));
  }

  /** One unrolling of the auto-gather loop while the flag is set. */
  lemma GatherLoopUnfold(s: ServiceState, name: string, outcomes: seq<Outcome>)
    requires name in s.autoGather && s.autoGather[name] && outcomes != []
    ensures var step := GatherStep(s, name, outcomes[0]);
      var rest := GatherLoop(step.0, name, outcomes[1..]);
      GatherLoop(s, name, outcomes) == (rest.0, [step.1] + rest.1)
  {
  }

  class CharacterService {
    /** `_characterNames`: every known character, in the order first seen. */
    var characterNames: seq<string>
    /** `_characters`: the cached snapshot of each character. */
    var characters: map<string, CharacterData>
    /** `_autoGatherStatus`: whether the auto-gather loop should keep going. */
    var autoGatherStatus: map<string, bool>
    /** `_cooldowns`: `(TotalSeconds, RemainingSeconds)` of each character. */
    var cooldowns: map<string, Cooldown>
    /** `_progressWidths`: the progress-bar width of each character, in percent. */
    var progressWidths: map<string, real>
    /** The names whose cooldown and progress timers were created (the key set of both timer dictionaries). */
    var timers: set<string>

    /** The abstract value of the service. */
    function State(): ServiceState
      reads this
    {
      ServiceState(characterNames, characters, autoGatherStatus, cooldowns, progressWidths, timers)
    }

    ghost predicate Valid()
      reads this
    {
      Inv(State())
    }

    /**
     * Registers the three demo characters with their level and position,
     * then gives each listed name cooldown (0, 0), width 0, the flag off and
     * its two timers.
     */
    constructor ()
      ensures Valid() && State() == Initial()
    {
      characterNames := [];
      characters := map[];
      autoGatherStatus := map[];
      cooldowns := map[];
      progressWidths := map[];
      timers := {};
      new;
      characterNames := characterNames + ["pancake"];
      characterNames := characterNames + ["Izzy"];
      characterNames := characterNames + ["Goober"];
      assert characterNames == SeededNames;
      characters := characters["pancake" := SeedData("pancake")];
      characters := characters["Izzy" := SeedData("Izzy")];
      characters := characters["Goober" := SeedData("Goober")];
      InitializeCooldownTracking();
      ghost var init := Initial();
      assert characters == init.characters;
      assert cooldowns == init.cooldowns && progressWidths == init.widths;
      assert autoGatherStatus == init.autoGather && timers == init.timers;
      InitialInv();
    }

    /**
     * The constructor's loop over the listed names: each gets cooldown
     * (0, 0), width 0, the flag off and its two timers.
     */
    method InitializeCooldownTracking()
      requires cooldowns == map[] && progressWidths == map[] && autoGatherStatus == map[] && timers == {}
      modifies this
      ensures characterNames == old(characterNames) && characters == old(characters)
      ensures cooldowns == map n | n in characterNames :: Idle
      ensures progressWidths == map n | n in characterNames :: 0.0
      ensures autoGatherStatus == map n | n in characterNames :: false
      ensures timers == set n | n in characterNames
    {
      var i := 0;
      while i < |characterNames|
        invariant 0 <= i <= |characterNames|
        invariant characterNames == old(characterNames) && characters == old(characters)
        invariant cooldowns == map n | n in characterNames[..i] :: Idle
        invariant progressWidths == map n | n in characterNames[..i] :: 0.0
        invariant autoGatherStatus == map n | n in characterNames[..i] :: false
        invariant timers == set n | n in characterNames[..i]
      {
        var name := characterNames[i];
        assert characterNames[..i + 1] == characterNames[..i] + [name];
        ConstantMapSnoc(characterNames[..i], name, Idle);
        ConstantMapSnoc(characterNames[..i], name, 0.0);
        ConstantMapSnoc(characterNames[..i], name, false);
        cooldowns := cooldowns[name := Idle];
        progressWidths := progressWidths[name := 0.0];
        autoGatherStatus := autoGatherStatus[name := false];
        InitializeTimersForCharacter(name);
        i := i + 1;
      }
      assert characterNames[..i] == characterNames;
    }

    /** Creates and starts the character's two timers: only the timer key set records it. */
    method InitializeTimersForCharacter(name: string)
      modifies this
      ensures State() == old(State()).(timers := old(timers) + {name})
    {
      timers := timers + {name};
    }

    /**
     * `FetchAllCharactersAsync`: on success every roster entry is merged in
     * order; on a rejection or an exception only a notification is raised.
     */
    method FetchAllCharacters(result: RosterResult)
      requires Valid()
      modifies this
      ensures Valid()
      ensures result.RosterOk? ==> State() == MergeRoster(old(State()), result.entries)
      ensures !result.RosterOk? ==> State() == old(State())
    {
      if result.RosterOk? {
        var entries := result.entries;
        var i := 0;
        while i < |entries|
          invariant 0 <= i <= |entries|
          invariant State() == MergeRoster(old(State()), entries[..i])
          invariant Valid()
        {
          MergeRosterEntry(entries[i]);
          assert entries[..i + 1][..i] == entries[..i];
          i := i + 1;
        }
        assert entries[..i] == entries;
      }
    }

    /**
     * One pass of the roster loop: an entry with a non-empty name is listed
     * on first sight and seeded with a snapshot at its position, an idle
     * cooldown, width 0, the flag off and its timers; a known one only has its
     * position overwritten.
     */
    method MergeRosterEntry(e: RosterEntry)
      requires Valid()
      modifies this
      ensures Valid()
      ensures State() == MergeEntry(old(State()), e)
    {
      var name := e.name.GetOr("");
      if name != "" {
        if name !in characterNames {
          characterNames := characterNames + [name];
        }
        if name !in characters {
          characters := characters[name := Blank(name).(x := e.x, y := e.y)];
          cooldowns := cooldowns[name := Idle];
          progressWidths := progressWidths[name := 0.0];
          autoGatherStatus := autoGatherStatus[name := false];
          InitializeTimersForCharacter(name);
        } else {
          characters := characters[name := characters[name].(x := e.x, y := e.y)];
        }
      }
      MergeEntryInv(old(State()), e);
    }

    /**
     * `UpdateCharacterCoordinatesAsync`: on success the roster is scanned for
     * the character and the first matching entry's position is copied into
     * its snapshot, which ends the scan.
     */
    method UpdateCharacterCoordinates(name: string, result: RosterResult)
      requires Valid()
      modifies this
      ensures Valid()
      ensures result.RosterOk? ==> State() == PatchPosition(old(State()), name, result.entries)
      ensures !result.RosterOk? ==> State() == old(State())
    {
      if result.RosterOk? {
        var entries := result.entries;
        var i := 0;
        while i < |entries|
          invariant 0 <= i <= |entries|
          invariant State() == old(State())
          invariant name in characters ==> forall j :: 0 <= j < i ==> entries[j].name != Some(name)
        {
          if entries[i].name == Some(name) && name in characters {
            characters := characters[name := characters[name].(x := entries[i].x, y := entries[i].y)];
            assert FirstMatch(entries, name) == i;
            return;
          }
          i := i + 1;
        }
      }
    }

    /**
     * `ProgressTimerElapsed`: while the character's cooldown runs, one second
     * is taken off and the width is recomputed from the value before the
     * decrement.
     */
    method ProgressTimerElapsed(name: string)
      requires Valid()
      modifies this
      ensures Valid()
      ensures State() == ProgressTick(old(State()), name)
    {
      if name in cooldowns && cooldowns[name].remaining > 0 {
        var c := cooldowns[name];
        cooldowns := cooldowns[name := Cooldown(c.total, c.remaining - 1)];
        progressWidths := progressWidths[name := ((c.total - c.remaining) as real / c.total as real) * 100.0];
      }
    }

    /**
     * `FetchCharacterDataAsync`: a decoded snapshot replaces the cached one
     * (zero-quantity items dropped); an expired token or an exception falls
     * back to demo data; any other rejection only notifies.
     */
    method FetchCharacterData(name: string, result: FetchResult)
      requires Valid()
      modifies this
      ensures Valid()
      ensures State() == FetchCharacter(old(State()), name, result)
    {
      match result
      case FetchOk(data) =>
        characters := characters[name := data.(inventory := FilterInventory(data.inventory))];
      case FetchRejected(_, tokenExpired) =>
        if tokenExpired {
          PopulateDemoCharacterData(name);
        }
      case FetchThrew =>
        PopulateDemoCharacterData(name);
    }

    /**
     * `PopulateDemoCharacterData`: the cached snapshot, or a new one named
     * `name`, has its attributes overwritten with fixed values and draws
     * seeded from the name, and is stored back.
     */
    method PopulateDemoCharacterData(name: string)
      requires Valid()
      modifies this
      ensures Valid()
      ensures State() == PopulateDemo(old(State()), name)
    {
      var character := if name in characters then characters[name] else Blank(name);
      character := OverwriteWithDemo(name, character);
      characters := characters[name := character];
      assert State() == PopulateDemo(old(State()), name);
    }

    /** Applies the outcome of a remote action to the cooldown, width and flag maps. */
    method ApplyOutcome(name: string, action: Action, outcome: Outcome)
      requires Valid()
      modifies this
      ensures Valid()
      ensures State() == ApplyAction(old(State()), name, action, outcome)
    {
      match outcome
      case Ok(seconds) =>
        cooldowns := cooldowns[name := Cooldown(seconds, seconds)];
        progressWidths := progressWidths[name := 0.0];
      case Rejected(status) =>
        if action.Gather? && status == BlockedStatus {
          autoGatherStatus := autoGatherStatus[name := false];
        }
      case Threw =>
    }

    /** `MoveActionAsync`: a move to `(x, y)` with the given outcome. */
    method MoveAction(name: string, x: int, y: int, outcome: Outcome)
      requires Valid()
      modifies this
      ensures Valid()
      ensures State() == ApplyAction(old(State()), name, Move(x, y), outcome)
    {
      ApplyOutcome(name, Move(x, y), outcome);
    }

    /** `GatherActionAsync`: a gather with the given outcome. */
    method GatherAction(name: string, outcome: Outcome)
      requires Valid()
      modifies this
      ensures Valid()
      ensures State() == ApplyAction(old(State()), name, Gather, outcome)
    {
      ApplyOutcome(name, Gather, outcome);
    }

    /** `CraftItemActionAsync`: crafting `quantity` of `code` with the given outcome. */
    method CraftItemAction(name: string, code: string, quantity: int, outcome: Outcome)
      requires Valid()
      modifies this
      ensures Valid()
      ensures State() == ApplyAction(old(State()), name, Craft(code, quantity), outcome)
    {
      ApplyOutcome(name, Craft(code, quantity), outcome);
    }

    /**
     * One pass of the auto-gather loop body: a gather with the given outcome,
     * then the delay chosen from the cooldown it left behind.
     */
    method GatherIteration(name: string, outcome: Outcome) returns (ms: int)
      requires Valid()
      modifies this
      ensures Valid()
      ensures (State(), ms) == GatherStep(old(State()), name, outcome)
    {
      GatherAction(name, outcome);
      ms := 1000;
      if name in cooldowns && cooldowns[name].remaining > 0 {
        ms := cooldowns[name].remaining * 1000;
      }
    }

    /**
     * `ToggleAutoGatherAsync`: negates the flag (`None` when the name has
     * none, where the source throws), then gathers while the flag stays set,
     * one outcome per iteration, and returns the delays it waited.
     */
    method ToggleAutoGather(name: string, outcomes: seq<Outcome>) returns (delays: Option<seq<int>>)
      requires Valid()
      modifies this
      ensures Valid()
      ensures AutoGather(old(State()), name, outcomes) ==
        (if delays.Some? then Some((State(), delays.value)) else None)
      ensures delays.None? ==> State() == old(State())
    {
      if name !in autoGatherStatus {
        return None;
      }
      autoGatherStatus := autoGatherStatus[name := !autoGatherStatus[name]];
      ghost var start := State();
      var waited: seq<int> := [];
      var i := 0;
      assert outcomes[i..] == outcomes;
      assert waited + GatherLoop(start, name, outcomes).1 == GatherLoop(start, name, outcomes).1;
      while autoGatherStatus[name] && i < |outcomes|
        invariant 0 <= i <= |outcomes|
        invariant Valid() && name in autoGatherStatus
        invariant var rest := GatherLoop(State(), name, outcomes[i..]);
          GatherLoop(start, name, outcomes) == (rest.0, waited + rest.1)
        decreases |outcomes| - i
      {
        ghost var before := State();
        var ms := GatherIteration(name, outcomes[i]);
        GatherLoopUnfold(before, name, outcomes[i..]);
        assert outcomes[i..][1..] == outcomes[i + 1..];
        AppendAssoc(waited, [ms], GatherLoop(State(), name, outcomes[i + 1..]).1);
        waited := waited + [ms];
        i := i + 1;
      }
      assert GatherLoop(State(), name, outcomes[i..]) == (State(), []);
      assert waited + [] == waited;
      delays := Some(waited);
    }

    // -------------------------------------------------------------------------
    // Queries

    /** `GetCharacterNames`: distinct, non-empty names, each with a snapshot. */
    function GetCharacterNames(): (names: seq<string>)
      reads this
      ensures names == characterNames
      ensures Valid() ==> NoDuplicates(names)
      ensures Valid() ==> forall n :: n in names ==> n != "" && n in characters
    {
      characterNames
    }

    /** `GetCharacterData`: the cached snapshot, `None` for an unknown name. */
    function GetCharacterData(name: string): (data: Option<CharacterData>)
      reads this
      ensures data.Some? <==> name in characters
      ensures data.Some? ==> data.value == characters[name]
    {
      Lookup(State(), name)
    }

    /** `GetProgressWidth`: the stored width, 0 for an unknown name; always in [0, 100). */
    function GetProgressWidth(name: string): (width: real)
      reads this
      ensures Valid() ==> 0.0 <= width < 100.0
      ensures name !in progressWidths ==> width == 0.0
      ensures name in progressWidths ==> width == progressWidths[name]
    {
      ProgressWidth(State(), name)
    }

    /** `IsActionButtonsDisabled`: exactly while the character has seconds of cooldown left. */
    function IsActionButtonsDisabled(name: string): (disabled: bool)
      reads this
      ensures disabled <==> name in cooldowns && cooldowns[name].remaining > 0
      ensures disabled && Valid() ==> cooldowns[name].remaining <= cooldowns[name].total
    {
      IsActionLocked(State(), name)
    }

    /** `IsAutoGatherEnabled`: the flag, false for an unknown name. */
    function IsAutoGatherEnabled(name: string): (enabled: bool)
      reads this
      ensures enabled <==> name in autoGatherStatus && autoGatherStatus[name]
    {
      AutoGatherEnabled(State(), name)
    }
  }
}
