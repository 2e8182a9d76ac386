/**
 * The cached character snapshot (`CharacterData`, `InventoryItem`), the
 * positive-quantity filter applied when an inventory is decoded, and the
 * synthetic demo snapshot `PopulateDemoCharacterData` writes when the remote
 * source is unavailable.
 */
module Characters {

  /** Level, experience and experience cap of one gathering or crafting skill. */
  datatype Skill = Skill(level: int, xp: int, maxXp: int)

  /** One value per element, for the attack, elemental damage and resistance groups. */
  datatype Elements = Elements(fire: int, earth: int, water: int, air: int)

  /** The equipment slots (item codes) and the two utility-slot quantities. */
  datatype Equipment = Equipment(
    weapon: string, rune: string, shield: string, helmet: string,
    bodyArmor: string, legArmor: string, boots: string,
    ring1: string, ring2: string, amulet: string,
    artifact1: string, artifact2: string, artifact3: string,
    utility1: string, utility1Quantity: int,
    utility2: string, utility2Quantity: int,
    bag: string)

  /** The character's current task and its progress. */
  datatype TaskInfo = TaskInfo(task: string, taskType: string, progress: int, total: int)

  datatype InventoryItem = InventoryItem(slot: int, code: string, quantity: int)

  /**
   * The attributes of a character besides its identity, position, cooldown,
   * equipment, task and inventory: account, looks, level, skills and combat
   * statistics.
   */
  datatype Profile = Profile(
    account: string, skin: string,
    level: int, xp: int, maxXp: int, gold: int, speed: int,
    mining: Skill, woodcutting: Skill, fishing: Skill, weaponcrafting: Skill,
    gearcrafting: Skill, jewelrycrafting: Skill, cooking: Skill, alchemy: Skill,
    hp: int, maxHp: int, haste: int, criticalStrike: int, wisdom: int, prospecting: int,
    attack: Elements, dmg: int, dmgElements: Elements, res: Elements)

  /** Snapshot of one character, as the service caches it. */
  datatype CharacterData = CharacterData(
    name: string, x: int, y: int, cooldown: int,
    profile: Profile, equipment: Equipment, task: TaskInfo,
    inventoryMaxItems: int, inventory: seq<InventoryItem>)

  const NoSkill: Skill := Skill(0, 0, 0)
  const NoElements: Elements := Elements(0, 0, 0, 0)

  /** The default attributes of a freshly created `CharacterData`. */
  const BlankProfile: Profile := Profile(
    "", "", 0, 0, 0, 0, 0,
    NoSkill, NoSkill, NoSkill, NoSkill, NoSkill, NoSkill, NoSkill, NoSkill,
    0, 0, 0, 0, 0, 0,
    NoElements, 0, NoElements, NoElements)

  /** `new CharacterData { Name = name }`: empty strings, zero numbers, empty inventory. */
  function Blank(name: string): (c: CharacterData)
    ensures c.name == name && c.x == 0 && c.y == 0 && c.inventory == []
  {
    CharacterData(
      name, 0, 0, 0, BlankProfile,
      Equipment("", "", "", "", "", "", "", "", "", "", "", "", "", "", 0, "", 0, ""),
      TaskInfo("", "", 0, 0),
      0, [])
  }

  /** The eight skills, in declaration order. */
  function Skills(c: Profile): seq<Skill> {
    [c.mining, c.woodcutting, c.fishing, c.weaponcrafting,
     c.gearcrafting, c.jewelrycrafting, c.cooking, c.alchemy]
  }

  // ---------------------------------------------------------------------------
  // Inventory decoding

  /**
   * The `Where(x => x.Quantity > 0)` applied to a decoded inventory: exactly
   * the items with a positive quantity are kept, in their original order.
   */
  function FilterInventory(items: seq<InventoryItem>): (r: seq<InventoryItem>)
    ensures |r| <= |items|
    ensures forall i :: 0 <= i < |r| ==> r[i].quantity > 0
    ensures forall it :: it in r <==> it in items && it.quantity > 0
  {
    if items == [] then []
    else (if items[0].quantity > 0 then [items[0]] else []) + FilterInventory(items[1..])
  }

  /** Filtering a concatenation filters each part: the relative order of kept items is preserved. */
  lemma {:induction false} FilterInventoryAppend(a: seq<InventoryItem>, b: seq<InventoryItem>)
    ensures FilterInventory(a + b) == FilterInventory(a) + FilterInventory(b)
  {
    if a != [] {
      assert (a + b)[1..] == a[1..] + b;
      FilterInventoryAppend(a[1..], b);
    } else {
      assert a + b == b;
    }
  }

  /** An inventory whose quantities are all positive passes the filter unchanged. */
  lemma {:induction false} FilterInventoryKeepsPositive(items: seq<InventoryItem>)
    requires forall i :: 0 <= i < |items| ==> items[i].quantity > 0
    ensures FilterInventory(items) == items
  {
    if items != [] {
      FilterInventoryKeepsPositive(items[1..]);
    }
  }

  // ---------------------------------------------------------------------------
  // Demo data

  /**
   * Stand-in for the `index`-th `Next(lo, hi)` call on the generator that
   * `new Random(name.GetHashCode())` creates: deterministic in the name and
   * the index, and within `[lo, hi)` as `Random.Next` promises. It folds the
   * name's characters into the draw; only the range is relied upon.
   */
  function Draw(name: string, index: nat, lo: int, hi: int): (r: int)
    requires lo < hi
    ensures lo <= r < hi
    decreases |name|
  {
    if name == [] then lo + index % (hi - lo)
    else lo + (Draw(name[..|name| - 1], index, lo, hi) - lo + 31 * name[|name| - 1] as int) % (hi - lo)
  }

  /** A demo skill: level from draw `index`, experience from draw `index + 1`, cap 1000. */
  function DemoSkill(name: string, index: nat): (s: Skill)
    ensures 1 <= s.level < 30 && 100 <= s.xp < 1000 && s.maxXp == 1000
  {
    Skill(Draw(name, index, 1, 30), Draw(name, index + 1, 100, 1000), 1000)
  }

  /** Item codes of the fixed demo inventory, slots 1 to 6. */
  const DemoCodes: seq<string> := ["wood", "stone", "iron_ore", "gold_ore", "fish", "potion"]

  /** Exclusive upper bounds of the demo inventory quantities, slots 1 to 6. */
  const DemoQuantityBounds: seq<int> := [50, 50, 30, 20, 15, 5]

  /** The documented ranges of every drawn attribute and the fixed values beside them. */
  predicate DemoProfileRanges(p: Profile) {
    && p.account == "demo_account" && p.skin == "default"
    && 1 <= p.level < 50 && 1000 <= p.xp < 5000 && p.maxXp == 10000
    && 100 <= p.gold < 10000 && 5 <= p.speed < 20
    && (forall s :: s in Skills(p) ==> 1 <= s.level < 30 && 100 <= s.xp < 1000 && s.maxXp == 1000)
    && 50 <= p.hp < 200 && p.maxHp == 200
    && 1 <= p.haste < 20 && 1 <= p.criticalStrike < 20 && 1 <= p.wisdom < 20 && 1 <= p.prospecting < 20
    && InRange(p.attack, 1, 20) && 10 <= p.dmg < 50
    && InRange(p.dmgElements, 1, 20) && InRange(p.res, 1, 20)
  }

  /** Demo ranges of a whole snapshot: attributes, utility quantities, task and inventory size. */
  predicate DemoRanges(c: CharacterData) {
    && DemoProfileRanges(c.profile)
    && 1 <= c.equipment.utility1Quantity < 10 && 1 <= c.equipment.utility2Quantity < 10
    && c.task == TaskInfo("Demo Task", "Gathering", c.task.progress, 10) && 1 <= c.task.progress < 10
    && c.inventoryMaxItems == 20
  }

  predicate InRange(e: Elements, lo: int, hi: int) {
    lo <= e.fire < hi && lo <= e.earth < hi && lo <= e.water < hi && lo <= e.air < hi
  }

  /** The demo inventory: six items in slots 1..6 with the fixed codes and positive bounded quantities. */
  predicate DemoInventory(inventory: seq<InventoryItem>) {
    && |inventory| == 6
    && forall i :: 0 <= i < 6 ==>
         && inventory[i].slot == i + 1
         && inventory[i].code == DemoCodes[i]
         && 1 <= inventory[i].quantity < DemoQuantityBounds[i]
  }

  function DemoElements(name: string, index: nat): (e: Elements)
    ensures InRange(e, 1, 20)
  {
    Elements(Draw(name, index, 1, 20), Draw(name, index + 1, 1, 20),
             Draw(name, index + 2, 1, 20), Draw(name, index + 3, 1, 20))
  }

  function DemoItems(name: string): (inventory: seq<InventoryItem>)
    ensures DemoInventory(inventory)
  {
    [InventoryItem(1, "wood", Draw(name, 41, 1, 50)),
     InventoryItem(2, "stone", Draw(name, 42, 1, 50)),
     InventoryItem(3, "iron_ore", Draw(name, 43, 1, 30)),
     InventoryItem(4, "gold_ore", Draw(name, 44, 1, 20)),
     InventoryItem(5, "fish", Draw(name, 45, 1, 15)),
     InventoryItem(6, "potion", Draw(name, 46, 1, 5))]
  }

  /** The drawn attributes, in the order of the source's `Next` calls (draws 0 to 37). */
  function DemoProfile(name: string): (p: Profile)
    ensures DemoProfileRanges(p)
    ensures p.hp < p.maxHp && p.xp < p.maxXp
    ensures forall s :: s in Skills(p) ==> s.xp < s.maxXp
  {
    Profile(
      "demo_account", "default",
      Draw(name, 0, 1, 50), Draw(name, 1, 1000, 5000), 10000,
      Draw(name, 2, 100, 10000), Draw(name, 3, 5, 20),
      DemoSkill(name, 4), DemoSkill(name, 6), DemoSkill(name, 8), DemoSkill(name, 10),
      DemoSkill(name, 12), DemoSkill(name, 14), DemoSkill(name, 16), DemoSkill(name, 18),
      Draw(name, 20, 50, 200), 200,
      Draw(name, 21, 1, 20), Draw(name, 22, 1, 20), Draw(name, 23, 1, 20), Draw(name, 24, 1, 20),
      DemoElements(name, 25), Draw(name, 29, 10, 50), DemoElements(name, 30), DemoElements(name, 34))
  }

  /** The demo equipment: fixed item codes, utility quantities from draws 38 and 39. */
  function DemoEquipment(name: string): (e: Equipment)
    ensures 1 <= e.utility1Quantity < 10 && 1 <= e.utility2Quantity < 10
  {
    Equipment(
      "Demo Weapon", "Demo Rune", "Demo Shield", "Demo Helmet",
      "Demo Body Armor", "Demo Leg Armor", "Demo Boots",
      "Demo Ring 1", "Demo Ring 2", "Demo Amulet",
      "Demo Artifact 1", "Demo Artifact 2", "Demo Artifact 3",
      "Demo Utility 1", Draw(name, 38, 1, 10),
      "Demo Utility 2", Draw(name, 39, 1, 10),
      "Demo Bag")
  }

  /**
   * `PopulateDemoCharacterData` applied to `base` (the cached snapshot, or a
   * blank one named `name`): every attribute is overwritten with a fixed
   * value or a draw seeded from `name`; the name, position and cooldown of
   * `base` are kept. Every drawn value lies in its range and below its fixed
   * maximum, and the inventory is the fixed six-item one.
   */
  function Demo(name: string, base: CharacterData): (r: CharacterData)
    ensures r.name == base.name && r.x == base.x && r.y == base.y && r.cooldown == base.cooldown
    ensures DemoRanges(r) && DemoInventory(r.inventory)
    ensures r.profile.hp < r.profile.maxHp && r.profile.xp < r.profile.maxXp
    ensures r.task.progress < r.task.total
    ensures forall s :: s in Skills(r.profile) ==> s.xp < s.maxXp
  {
    base.(
      profile := DemoProfile(name),
      equipment := DemoEquipment(name),
      task := TaskInfo("Demo Task", "Gathering", Draw(name, 40, 1, 10), 10),
      inventoryMaxItems := 20,
      inventory := DemoItems(name))
  }

  /**
   * The generated attributes depend on the name alone: two bases differ in
   * the result only in the name, position and cooldown they bring along.
   */
  lemma DemoDependsOnlyOnName(name: string, b1: CharacterData, b2: CharacterData)
    ensures Demo(name, b1).(name := b2.name, x := b2.x, y := b2.y, cooldown := b2.cooldown)
            == Demo(name, b2)
  {
  }

  /** Generating twice for the same name gives the same snapshot as generating once. */
  lemma DemoIdempotent(name: string, base: CharacterData)
    ensures Demo(name, Demo(name, base)) == Demo(name, base)
  {
  }

  /** The demo inventory already satisfies the decoder's positive-quantity filter. */
  lemma DemoInventorySurvivesFilter(name: string, base: CharacterData)
    ensures FilterInventory(Demo(name, base).inventory) == Demo(name, base).inventory
  {
    FilterInventoryKeepsPositive(Demo(name, base).inventory);
  }
}
