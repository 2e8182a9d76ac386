/**
 * The bookkeeping of `CharacterService` as a value: the ordered name list,
 * the snapshot map, the cooldown, progress-width and auto-gather maps, and
 * the set of names whose two timers have been started. Every operation of
 * the service is a function from one such state to the next; the class in
 * `Service` is proved to perform exactly these transitions.
 */
module ServiceSpec {
  import opened Wrappers
  import opened Cooldowns
  import opened Characters

  /** Result of one remote move, gather or craft request. */
  datatype Outcome = Ok(cooldown: int) | Rejected(status: int) | Threw

  /** The status of a gather rejection that means "blocked": it switches auto-gathering off. */
  const BlockedStatus: int := 497

  /** The three remote actions, with the parameters each request carries. */
  datatype Action = Move(x: int, y: int) | Gather | Craft(code: string, quantity: int)

  /** One decoded entry of the roster; a JSON `null` name is `None`. */
  datatype RosterEntry = RosterEntry(name: Option<string>, x: int, y: int)

  /** Result of fetching the roster (`/my/characters`). */
  datatype RosterResult =
    | RosterOk(entries: seq<RosterEntry>)
    | RosterRejected(status: int, tokenExpired: bool)
    | RosterThrew

  /** Result of fetching one character; `data` holds the decoded record before inventory filtering. */
  datatype FetchResult =
    | FetchOk(data: CharacterData)
    | FetchRejected(status: int, tokenExpired: bool)
    | FetchThrew

  /** The service's mutable state; `timers` is the key set of both timer dictionaries. */
  datatype ServiceState = ServiceState(
    names: seq<string>,
    characters: map<string, CharacterData>,
    autoGather: map<string, bool>,
    cooldowns: map<string, Cooldown>,
    widths: map<string, real>,
    timers: set<string>)

  predicate NoDuplicates(s: seq<string>) {
    forall i, j :: 0 <= i < j < |s| ==> s[i] != s[j]
  }

  /**
   * What every operation keeps. The listed names are distinct, non-empty and
   * have a snapshot; a name whose timers run (one the constructor or the
   * roster introduced) also has a cooldown and a flag. Cooldowns and widths
   * always share one key set, remaining never exceeds total, and a width is
   * in [0, 100). Snapshots, cooldowns and flags may exist for other names
   * too: a fetch, a demo fallback or an action on an unlisted name adds them.
   */
  predicate Inv(s: ServiceState) {
    && NoDuplicates(s.names)
    && (forall n :: n in s.names ==> n != "" && n in s.characters)
    && (forall n :: n in s.timers ==> n in s.names && n in s.cooldowns && n in s.autoGather)
    && (forall n :: n in s.cooldowns ==> n in s.widths)
    && (forall n :: n in s.widths ==> n in s.cooldowns)
    && (forall n :: n in s.cooldowns ==> Consistent(s.cooldowns[n]))
    && (forall n :: n in s.widths ==> 0.0 <= s.widths[n] < 100.0)
  }

  /** `m1` and `m2` agree at `k`: both lack it, or both map it to the same value. */
  predicate AgreeAt<V(==)>(m1: map<string, V>, m2: map<string, V>, k: string) {
    (k in m1 <==> k in m2) && (k in m1 ==> m1[k] == m2[k])
  }

  /** Nothing about character `n` differs between `s` and `r`. */
  predicate Untouched(s: ServiceState, r: ServiceState, n: string) {
    && (n in s.names <==> n in r.names)
    && AgreeAt(s.characters, r.characters, n)
    && AgreeAt(s.autoGather, r.autoGather, n)
    && AgreeAt(s.cooldowns, r.cooldowns, n)
    && AgreeAt(s.widths, r.widths, n)
    && (n in s.timers <==> n in r.timers)
  }

  // ---------------------------------------------------------------------------
  // Read-only queries

  /** `GetCharacterData`: the cached snapshot, if any. */
  function Lookup(s: ServiceState, name: string): Option<CharacterData> {
    if name in s.characters then Some(s.characters[name]) else None
  }

  /** `IsActionButtonsDisabled`: a cooldown entry exists and seconds remain. */
  predicate IsActionLocked(s: ServiceState, name: string) {
    name in s.cooldowns && Running(s.cooldowns[name])
  }

  /** `GetProgressWidth`: the stored width, 0 for an unknown name. */
  function ProgressWidth(s: ServiceState, name: string): real {
    if name in s.widths then s.widths[name] else 0.0
  }

  /** `IsAutoGatherEnabled`: a flag exists and is set. */
  predicate AutoGatherEnabled(s: ServiceState, name: string) {
    name in s.autoGather && s.autoGather[name]
  }

  // ---------------------------------------------------------------------------
  // Construction

  /** The three demo characters the constructor registers, in order. */
  const SeededNames: seq<string> := ["pancake", "Izzy", "Goober"]

  /** The basic snapshot the constructor gives each demo character: level and position. */
  function SeedData(name: string): CharacterData {
    var blank := Blank(name);
    if name == "pancake" then blank.(profile := BlankProfile.(level := 10), x := 100, y := 200)
    else if name == "Izzy" then blank.(profile := BlankProfile.(level := 15), x := 150, y := 250)
    else blank.(profile := BlankProfile.(level := 20), x := 200, y := 300)
  }

  /**
   * The state right after construction: the three demo characters with their
   * level and position, each with cooldown (0, 0), width 0, the flag off and
   * its timers started.
   */
  function Initial(): (s: ServiceState)
    ensures s.names == SeededNames
    ensures forall n :: n in SeededNames ==>
      && n in s.cooldowns && s.cooldowns[n] == Idle
      && n in s.widths && s.widths[n] == 0.0
      && n in s.autoGather && !s.autoGather[n]
      && n in s.timers && n in s.characters && s.characters[n] == SeedData(n)
    ensures forall n :: n in s.characters || n in s.cooldowns || n in s.widths || n in s.autoGather || n in s.timers ==>
      n in SeededNames
  {
    ServiceState(
      SeededNames,
      map[]["pancake" := SeedData("pancake")]["Izzy" := SeedData("Izzy")]["Goober" := SeedData("Goober")],
      map n | n in SeededNames :: false,
      map n | n in SeededNames :: Idle,
      map n | n in SeededNames :: 0.0,
      set n | n in SeededNames)
  }

  /** The constructed state satisfies the invariant: in particular the three names are distinct. */
  lemma InitialInv()
    ensures Inv(Initial())
  {
    SeededInv(Initial());
  }

  /** Any state laid out as `Initial` describes it satisfies the invariant. */
  lemma SeededInv(s: ServiceState)
    requires s.names == SeededNames
    requires forall n :: n in SeededNames ==>
      && n in s.cooldowns && s.cooldowns[n] == Idle
      && n in s.widths && s.widths[n] == 0.0
      && n in s.autoGather && n in s.timers && n in s.characters
    requires forall n :: n in s.characters || n in s.cooldowns || n in s.widths || n in s.autoGather || n in s.timers ==>
      n in SeededNames
    ensures Inv(s)
  {
    assert NoDuplicates(SeededNames) by {
      assert |"pancake"| == 7 && |"Izzy"| == 4 && |"Goober"| == 6;
    }
    forall n | n in s.cooldowns
      ensures n in s.widths && Consistent(s.cooldowns[n])
    {
      assert n in SeededNames;
    }
  }

  // ---------------------------------------------------------------------------
  // Countdown

  /**
   * `ProgressTimerElapsed`: one firing of the character's progress timer. Its
   * cooldown and width go through `Elapse` (a running cooldown loses one
   * second and the width is set from the pre-decrement value); a name
   * without a cooldown changes nothing. No other character is touched.
   */
  function ProgressTick(s: ServiceState, name: string): (r: ServiceState)
    requires Inv(s)
    ensures Inv(r)
    ensures r.names == s.names && r.characters == s.characters
    ensures r.autoGather == s.autoGather && r.timers == s.timers
    ensures forall n :: n != name ==> Untouched(s, r, n)
    ensures name in s.cooldowns ==>
      && name in r.cooldowns && name in r.widths
      && (r.cooldowns[name], r.widths[name]) == Elapse(s.cooldowns[name], s.widths[name])
    ensures !IsActionLocked(s, name) ==> r == s
  {
    if name in s.cooldowns && Running(s.cooldowns[name]) then
      var c := s.cooldowns[name];
      s.(cooldowns := s.cooldowns[name := Tick(c)], widths := s.widths[name := TickWidth(c)])
    else
      s
  }

  // ---------------------------------------------------------------------------
  // Actions

  /**
   * How a move, gather or craft outcome is applied. Success with cooldown `c`
   * resets that character to `(c, c)` with width 0. A rejection or an
   * exception leaves every cooldown and width as it was; only a gather
   * rejected with status 497 also switches that character's auto-gather flag
   * off, whatever it was. No other character is touched.
   */
  function ApplyAction(s: ServiceState, name: string, a: Action, o: Outcome): (r: ServiceState)
    ensures Inv(s) ==> Inv(r)
    ensures r.names == s.names && r.characters == s.characters && r.timers == s.timers
    ensures forall n :: n != name ==> Untouched(s, r, n)
    ensures o.Ok? ==>
      && name in r.cooldowns && r.cooldowns[name] == Cooldown(o.cooldown, o.cooldown)
      && ProgressWidth(r, name) == 0.0
      && (IsActionLocked(r, name) <==> o.cooldown > 0)
    ensures !o.Ok? ==> r.cooldowns == s.cooldowns && r.widths == s.widths
    ensures a.Gather? && o == Rejected(BlockedStatus) ==>
      name in r.autoGather && !AutoGatherEnabled(r, name)
    ensures !(a.Gather? && o == Rejected(BlockedStatus)) ==> r.autoGather == s.autoGather
  {
    match o
    case Ok(c) =>
      s.(cooldowns := s.cooldowns[name := Cooldown(c, c)], widths := s.widths[name := 0.0])
    case Rejected(status) =>
      if a.Gather? && status == BlockedStatus then s.(autoGather := s.autoGather[name := false])
      else s
    case Threw =>
      s
  }

  // ---------------------------------------------------------------------------
  // Roster merge

  /** The name of an entry after `?? string.Empty`. */
  function EntryName(e: RosterEntry): string {
    e.name.GetOr("")
  }

  /** `n` is a non-empty name some roster entry carries. */
  predicate Mentions(roster: seq<RosterEntry>, n: string) {
    n != "" && exists i :: 0 <= i < |roster| && EntryName(roster[i]) == n
  }

  /**
   * One iteration of the merge loop in `FetchAllCharactersAsync`. An empty
   * name is skipped. Otherwise the name is appended to the list unless
   * already there; a name without a snapshot gets one with the entry's
   * position, cooldown (0, 0), width 0, flag off and its timers; a name with
   * a snapshot only has its position overwritten. Nothing about any other
   * name changes.
   */
  function MergeEntry(s: ServiceState, e: RosterEntry): (r: ServiceState)
    ensures s.names <= r.names
    ensures forall n :: n in r.names <==> n in s.names || (n != "" && n == EntryName(e))
    ensures forall n :: n == "" || n != EntryName(e) ==> Untouched(s, r, n)
  {
    var name := EntryName(e);
    if name == "" then s
    else
      var names := if name in s.names then s.names else s.names + [name];
      if name !in s.characters then
        s.(names := names,
           characters := s.characters[name := Blank(name).(x := e.x, y := e.y)],
           cooldowns := s.cooldowns[name := Idle],
           widths := s.widths[name := 0.0],
           autoGather := s.autoGather[name := false],
           timers := s.timers + {name})
      else
        s.(names := names,
           characters := s.characters[name := s.characters[name].(x := e.x, y := e.y)])
  }

  /** The merge step never lists a name twice: `Contains` guards the `Add`. */
  lemma MergeEntryNoDuplicates(s: ServiceState, e: RosterEntry)
    requires NoDuplicates(s.names)
    ensures NoDuplicates(MergeEntry(s, e).names)
  {
  }

  /** The merge step keeps the invariant. */
  lemma MergeEntryInv(s: ServiceState, e: RosterEntry)
    requires Inv(s)
    ensures Inv(MergeEntry(s, e))
  {
    MergeEntryNoDuplicates(s, e);
  }

  /**
   * A named entry whose character already has a snapshot moves that snapshot
   * to the entry's position and leaves its cooldown, width, flag and timers
   * alone.
   */
  lemma MergeEntryKnown(s: ServiceState, e: RosterEntry)
    requires EntryName(e) != "" && EntryName(e) in s.characters
    ensures var n, r := EntryName(e), MergeEntry(s, e);
      && AgreeAt(s.cooldowns, r.cooldowns, n)
      && AgreeAt(s.widths, r.widths, n)
      && AgreeAt(s.autoGather, r.autoGather, n)
      && (n in s.timers <==> n in r.timers)
      && n in r.characters && r.characters[n] == s.characters[n].(x := e.x, y := e.y)
  {
  }

  /**
   * A named entry whose character has no snapshot yet gets a blank one at the
   * entry's position, cooldown (0, 0), width 0, the flag off and its timers.
   */
  lemma MergeEntryNew(s: ServiceState, e: RosterEntry)
    requires EntryName(e) != "" && EntryName(e) !in s.characters
    ensures var n, r := EntryName(e), MergeEntry(s, e);
      && n in r.characters && r.characters[n] == Blank(n).(x := e.x, y := e.y)
      && n in r.cooldowns && r.cooldowns[n] == Idle
      && n in r.widths && r.widths[n] == 0.0
      && n in r.autoGather && !r.autoGather[n]
      && n in r.timers
  {
  }

  /** The whole merge loop: the entries applied in roster order. */
  function MergeRoster(s: ServiceState, roster: seq<RosterEntry>): (r: ServiceState)
    ensures Inv(s) ==> Inv(r)
    decreases |roster|
  {
    if roster == [] then s
    else
      var p := MergeRoster(s, roster[..|roster| - 1]);
      if Inv(p) then MergeEntryInv(p, roster[|roster| - 1]); MergeEntry(p, roster[|roster| - 1])
      else MergeEntry(p, roster[|roster| - 1])
  }

  /** Mentions in a roster are the mentions in its prefix plus those of its last entry. */
  lemma MentionsSnoc(roster: seq<RosterEntry>, n: string)
    requires roster != []
    ensures Mentions(roster, n) <==>
      Mentions(roster[..|roster| - 1], n) || (n != "" && EntryName(roster[|roster| - 1]) == n)
  {
    var init := roster[..|roster| - 1];
    if Mentions(roster, n) {
      var i :| 0 <= i < |roster| && EntryName(roster[i]) == n;
      if i < |init| {
        assert init[i] == roster[i];
      }
    }
    if Mentions(init, n) {
      var i :| 0 <= i < |init| && EntryName(init[i]) == n;
      assert roster[i] == init[i];
    }
  }

  /**
   * The merge never removes a name and never duplicates one: the old list is
   * a prefix of the new, and the new list holds exactly the old names plus
   * every non-empty name in the roster.
   */
  lemma {:induction false} MergeNames(s: ServiceState, roster: seq<RosterEntry>)
    ensures var r := MergeRoster(s, roster);
      && s.names <= r.names
      && (NoDuplicates(s.names) ==> NoDuplicates(r.names))
      && forall n :: n in r.names <==> n in s.names || Mentions(roster, n)
  {
    if roster != [] {
      var init := roster[..|roster| - 1];
      MergeNames(s, init);
      forall n ensures Mentions(roster, n) <==>
        Mentions(init, n) || (n != "" && EntryName(roster[|roster| - 1]) == n)
      {
        MentionsSnoc(roster, n);
      }
    }
  }

  /**
   * New names are appended in roster order: the list after merging any
   * prefix of the roster is a prefix of the list after merging all of it, so
   * a name first seen earlier in the roster stands earlier in the list.
   */
  lemma {:induction false} MergeNamesInRosterOrder(s: ServiceState, roster: seq<RosterEntry>, k: nat)
    requires k <= |roster|
    ensures MergeRoster(s, roster[..k]).names <= MergeRoster(s, roster).names
    decreases |roster| - k
  {
    if k < |roster| {
      var init := roster[..|roster| - 1];
      assert roster[..k] == init[..k];
      MergeNamesInRosterOrder(s, init, k);
      var a := MergeRoster(s, roster[..k]).names;
      var b := MergeRoster(s, init).names;
      var c := MergeRoster(s, roster).names;
      assert a == b[..|a|] && b == c[..|b|];
      assert a == c[..|a|];
    } else {
      assert roster[..k] == roster;
    }
  }

  /** A name the roster does not mention is untouched by the merge. */
  lemma {:induction false} MergeUntouched(s: ServiceState, roster: seq<RosterEntry>, n: string)
    requires !Mentions(roster, n)
    ensures Untouched(s, MergeRoster(s, roster), n)
  {
    if roster != [] {
      MentionsSnoc(roster, n);
      MergeUntouched(s, roster[..|roster| - 1], n);
    }
  }

  /**
   * A name that already had a snapshot keeps its cooldown, width, flag and
   * timers; of its snapshot only the position may change.
   */
  lemma {:induction false} MergeKnown(s: ServiceState, roster: seq<RosterEntry>, n: string)
    requires n in s.characters
    ensures var r := MergeRoster(s, roster);
      && n in r.characters
      && r.characters[n] == s.characters[n].(x := r.characters[n].x, y := r.characters[n].y)
      && AgreeAt(s.cooldowns, r.cooldowns, n)
      && AgreeAt(s.widths, r.widths, n)
      && AgreeAt(s.autoGather, r.autoGather, n)
      && (n in s.timers <==> n in r.timers)
  {
    if roster != [] {
      var p := MergeRoster(s, roster[..|roster| - 1]);
      MergeKnown(s, roster[..|roster| - 1], n);
      if n != "" && EntryName(roster[|roster| - 1]) == n {
        MergeEntryKnown(p, roster[|roster| - 1]);
      }
    }
  }

  /** Index of the last roster entry carrying the non-empty name `n`, if any. */
  function LastMention(roster: seq<RosterEntry>, n: string): (j: Option<nat>)
    ensures j.Some? ==> j.value < |roster| && n != "" && EntryName(roster[j.value]) == n
    ensures j.Some? ==> forall i :: j.value < i < |roster| ==> EntryName(roster[i]) != n
    ensures j.None? <==> !Mentions(roster, n)
    decreases |roster|
  {
    if roster == [] then None
    else if n != "" && EntryName(roster[|roster| - 1]) == n then Some(|roster| - 1)
    else LastMention(roster[..|roster| - 1], n)
  }

  /**
   * The position a known character ends with comes from the LAST roster
   * entry carrying its name; a character the roster does not mention keeps
   * its snapshot as it was.
   */
  lemma {:induction false} MergeKnownPosition(s: ServiceState, roster: seq<RosterEntry>, n: string)
    requires n in s.characters
    ensures var r := MergeRoster(s, roster);
      && n in r.characters
      && (LastMention(roster, n).Some? ==>
            r.characters[n].x == roster[LastMention(roster, n).value].x
            && r.characters[n].y == roster[LastMention(roster, n).value].y)
      && (LastMention(roster, n).None? ==> r.characters[n] == s.characters[n])
    decreases |roster|
  {
    if roster != [] {
      var init := roster[..|roster| - 1];
      var e := roster[|roster| - 1];
      var p := MergeRoster(s, init);
      MergeKnownPosition(s, init, n);
      if n != "" && EntryName(e) == n {
        MergeEntryKnown(p, e);
      } else {
        var j := LastMention(init, n);
        if j.Some? {
          assert roster[j.value] == init[j.value];
        }
      }
    }
  }

  /**
   * A name first seen in the roster gets a blank snapshot (apart from its
   * position), cooldown (0, 0), width 0, the flag off, its timers, and a
   * place in the list.
   */
  lemma {:induction false} MergeFirstSeen(s: ServiceState, roster: seq<RosterEntry>, n: string)
    requires n !in s.characters && Mentions(roster, n)
    ensures var r := MergeRoster(s, roster);
      && n in r.characters
      && r.characters[n] == Blank(n).(x := r.characters[n].x, y := r.characters[n].y)
      && n in r.cooldowns && r.cooldowns[n] == Idle
      && n in r.widths && r.widths[n] == 0.0
      && n in r.autoGather && !r.autoGather[n]
      && n in r.timers && n in r.names
  {
    var init := roster[..|roster| - 1];
    MentionsSnoc(roster, n);
    var p := MergeRoster(s, init);
    var e := roster[|roster| - 1];
    if Mentions(init, n) {
      MergeFirstSeen(s, init, n);
      if EntryName(e) == n {
        MergeEntryKnown(p, e);
      }
    } else {
      MergeUntouched(s, init, n);
      MergeEntryNew(p, e);
    }
  }

  // ---------------------------------------------------------------------------
  // Position refresh

  /** Index of the first roster entry named `name`, or `|roster|` when there is none. */
  function FirstMatch(roster: seq<RosterEntry>, name: string): (i: nat)
    ensures i <= |roster|
    ensures i < |roster| ==> roster[i].name == Some(name)
    ensures forall j :: 0 <= j < i ==> roster[j].name != Some(name)
  {
    if roster == [] then 0
    else if roster[0].name == Some(name) then 0
    else 1 + FirstMatch(roster[1..], name)
  }

  /**
   * `UpdateCharacterCoordinatesAsync` on a fetched roster: when the character
   * has a snapshot and the roster names it, the position of the FIRST such
   * entry is copied into the snapshot. Nothing else changes.
   */
  function PatchPosition(s: ServiceState, name: string, roster: seq<RosterEntry>): (r: ServiceState)
    ensures Inv(s) ==> Inv(r)
    ensures r == s.(characters := r.characters)
    ensures forall n :: n in r.characters <==> n in s.characters
    ensures forall n :: n in s.characters && n != name ==> r.characters[n] == s.characters[n]
    ensures name in s.characters ==>
      r.characters[name] == s.characters[name].(x := r.characters[name].x, y := r.characters[name].y)
    ensures name in s.characters && FirstMatch(roster, name) < |roster| ==>
      && r.characters[name].x == roster[FirstMatch(roster, name)].x
      && r.characters[name].y == roster[FirstMatch(roster, name)].y
    ensures name !in s.characters || FirstMatch(roster, name) == |roster| ==> r == s
  {
    var i := FirstMatch(roster, name);
    if name in s.characters && i < |roster| then
      s.(characters := s.characters[name := s.characters[name].(x := roster[i].x, y := roster[i].y)])
    else
      s
  }

  // ---------------------------------------------------------------------------
  // Single-character fetch and demo fallback

  /**
   * `PopulateDemoCharacterData`: the cached snapshot (or a blank one named
   * `name`) is overwritten with demo data seeded from `name`; its name and
   * position survive. Only the snapshot map changes.
   */
  function PopulateDemo(s: ServiceState, name: string): (r: ServiceState)
    ensures Inv(s) ==> Inv(r)
    ensures r == s.(characters := r.characters)
    ensures forall n :: n in r.characters <==> n in s.characters || n == name
    ensures forall n :: n in s.characters && n != name ==> r.characters[n] == s.characters[n]
    ensures var c := r.characters[name];
      && DemoRanges(c) && DemoInventory(c.inventory)
      && (name in s.characters ==>
            c.name == s.characters[name].name && c.x == s.characters[name].x && c.y == s.characters[name].y)
      && (name !in s.characters ==> c.name == name && c.x == 0 && c.y == 0)
  {
    var base := if name in s.characters then s.characters[name] else Blank(name);
    s.(characters := s.characters[name := Demo(name, base)])
  }

  /** Falling back twice for the same character gives what falling back once gave. */
  lemma PopulateDemoTwice(s: ServiceState, name: string)
    ensures PopulateDemo(PopulateDemo(s, name), name) == PopulateDemo(s, name)
  {
    var base := if name in s.characters then s.characters[name] else Blank(name);
    var once := PopulateDemo(s, name);
    DemoIdempotent(name, base);
    StoreSame(once.characters, name, Demo(name, base));
  }

  /** Storing the value a map already holds at a key leaves the map as it is. */
  lemma StoreSame<V>(m: map<string, V>, k: string, v: V)
    requires k in m && m[k] == v
    ensures m[k := v] == m
  {
  }

  /** The fetch falls back to demo data on an expired token and on any exception. */
  predicate FallsBack(result: FetchResult) {
    (result.FetchRejected? && result.tokenExpired) || result.FetchThrew?
  }

  /**
   * `FetchCharacterDataAsync`. Success stores the decoded snapshot with its
   * zero-quantity items dropped; an expired token or an exception replaces
   * the snapshot with demo data; any other rejection changes nothing. The
   * cooldown, width and flag maps and the name list are never touched.
   */
  function FetchCharacter(s: ServiceState, name: string, result: FetchResult): (r: ServiceState)
    ensures Inv(s) ==> Inv(r)
    ensures r == s.(characters := r.characters)
    ensures result.FetchOk? ==>
      && (forall n :: n in r.characters <==> n in s.characters || n == name)
      && (forall n :: n in s.characters && n != name ==> r.characters[n] == s.characters[n])
      && r.characters[name] == result.data.(inventory := FilterInventory(result.data.inventory))
      && (forall i :: 0 <= i < |r.characters[name].inventory| ==> r.characters[name].inventory[i].quantity > 0)
    ensures FallsBack(result) ==> r == PopulateDemo(s, name)
    ensures !result.FetchOk? && !FallsBack(result) ==> r == s
  {
    match result
    case FetchOk(data) =>
      s.(characters := s.characters[name := data.(inventory := FilterInventory(data.inventory))])
    case FetchRejected(_, tokenExpired) =>
      if tokenExpired then PopulateDemo(s, name) else s
    case FetchThrew =>
      PopulateDemo(s, name)
  }

  // ---------------------------------------------------------------------------
  // Auto-gather

  /**
   * The delay the auto-gather loop waits after a gather: the remaining
   * cooldown in milliseconds while one runs, else one second. It is never
   * shorter than a second, so the loop never spins.
   */
  function RetryDelay(s: ServiceState, name: string): (ms: int)
    ensures ms >= 1000 && ms % 1000 == 0
    ensures IsActionLocked(s, name) ==> ms == s.cooldowns[name].remaining * 1000
    ensures !IsActionLocked(s, name) ==> ms == 1000
  {
    if name in s.cooldowns && s.cooldowns[name].remaining > 0 then s.cooldowns[name].remaining * 1000
    else 1000
  }

  /**
   * One iteration of the auto-gather loop: a gather, then the delay chosen
   * from the cooldown it left. After a success with cooldown `c` the loop
   * waits `c` seconds (one second when `c <= 0`).
   */
  function GatherStep(s: ServiceState, name: string, o: Outcome): (r: (ServiceState, int))
    ensures r.0 == ApplyAction(s, name, Gather, o)
    ensures o.Ok? ==> r.1 == (if o.cooldown > 0 then o.cooldown * 1000 else 1000)
    ensures !o.Ok? ==> r.1 == RetryDelay(s, name)
  {
    var s1 := ApplyAction(s, name, Gather, o);
    (s1, RetryDelay(s1, name))
  }

  /**
   * The `while (_autoGatherStatus[name])` loop, driven by a finite sequence of
   * gather outcomes: it iterates while the flag is set and outcomes remain,
   * and returns the final state and the delays it waited. With the flag off
   * the body never runs.
   */
  function GatherLoop(s: ServiceState, name: string, outcomes: seq<Outcome>): (r: (ServiceState, seq<int>))
    requires name in s.autoGather
    ensures name in r.0.autoGather
    ensures |r.1| <= |outcomes|
    ensures Inv(s) ==> Inv(r.0)
    ensures !s.autoGather[name] ==> r == (s, [])
    ensures forall i :: 0 <= i < |r.1| ==> r.1[i] >= 1000
    decreases |outcomes|
  {
    if !s.autoGather[name] || outcomes == [] then (s, [])
    else
      var step := GatherStep(s, name, outcomes[0]);
      var rest := GatherLoop(step.0, name, outcomes[1..]);
      (rest.0, [step.1] + rest.1)
  }

  /** Index of the first gather rejected as blocked, or `|outcomes|` when none is. */
  function FirstBlocked(outcomes: seq<Outcome>): (i: nat)
    ensures i <= |outcomes|
    ensures i < |outcomes| ==> outcomes[i] == Rejected(BlockedStatus)
    ensures forall j :: 0 <= j < i ==> outcomes[j] != Rejected(BlockedStatus)
  {
    if outcomes == [] then 0
    else if outcomes[0] == Rejected(BlockedStatus) then 0
    else 1 + FirstBlocked(outcomes[1..])
  }

  /**
   * With the flag on, the loop stops immediately after the first gather
   * rejected with 497, leaving the flag off; when no gather is so rejected it
   * runs through every outcome and the flag stays on.
   */
  lemma {:induction false} GatherLoopStopsOnBlocked(s: ServiceState, name: string, outcomes: seq<Outcome>)
    requires name in s.autoGather && s.autoGather[name]
    ensures var r := GatherLoop(s, name, outcomes);
      && (FirstBlocked(outcomes) < |outcomes| ==>
            |r.1| == FirstBlocked(outcomes) + 1 && !r.0.autoGather[name])
      && (FirstBlocked(outcomes) == |outcomes| ==>
            |r.1| == |outcomes| && r.0.autoGather[name])
    decreases |outcomes|
  {
    if outcomes != [] {
      var s1 := GatherStep(s, name, outcomes[0]).0;
      if outcomes[0] != Rejected(BlockedStatus) {
        GatherLoopStopsOnBlocked(s1, name, outcomes[1..]);
      }
    }
  }

  /**
   * `ToggleAutoGatherAsync`: `None` when the name has no flag (the source
   * throws `KeyNotFoundException`); otherwise the flag is negated and the loop
   * runs. Toggling a set flag off runs no gather at all.
   */
  function AutoGather(s: ServiceState, name: string, outcomes: seq<Outcome>): (r: Option<(ServiceState, seq<int>)>)
    ensures r.None? <==> name !in s.autoGather
    ensures Inv(s) && r.Some? ==> Inv(r.value.0)
    ensures AutoGatherEnabled(s, name) ==>
      r == Some((s.(autoGather := s.autoGather[name := false]), []))
    ensures name in s.autoGather && !s.autoGather[name] ==>
      r == Some(GatherLoop(s.(autoGather := s.autoGather[name := true]), name, outcomes))
  {
    if name !in s.autoGather then None
    else Some(GatherLoop(s.(autoGather := s.autoGather[name := !s.autoGather[name]]), name, outcomes))
  }
}
