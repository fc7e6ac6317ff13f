/** The gain profiles read from the PGA description and their application to the mixer. */
module AudioPga {
  import opened GainBits

  const INITIAL_PROFILE_SIZE := 8
  const INITIAL_PROFILE_ITEM_SIZE := 2

  /** A mixer control, by identity. */
  type Ctl = nat

  datatype Item = Item(ctl: Ctl, bit: bv6)

  /** The entries of a table, the size its header records, and the slots that have really been allocated. */
  datatype Profile = Profile(name: string, items: seq<Item>, size: nat, slots: nat)

  datatype Attribute = Attribute(ctl: Ctl, max: bv32, inverse: bool)

  /** An element of the description; alloc says whether a realloc made for it succeeds. */
  datatype Tag =
    | ProfileTag(name: string, alloc: bool)
    | PgaTag(item: Item, alloc: bool)
    | MixerTag(ctl: Ctl, alloc: bool)
    | AttrTag(max: bv32, inverse: bool)

  /** The tables, and the profile and attribute that nested elements belong to (-1 is the null pointer). */
  datatype Tables = Tables(
    profiles: seq<Profile>, profileSize: nat, profileSlots: nat,
    attributes: seq<Attribute>, attributeSize: nat, attributeSlots: nat,
    profile: int, attribute: int)

  const EMPTY := Tables([], 0, 0, [], 0, 0, -1, -1)

  /** The first index whose element matches; -1 if there is none. */
  function Find<T>(xs: seq<T>, matches: T -> bool): (i: int)
    ensures i == -1 ==> forall k :: 0 <= k < |xs| ==> !matches(xs[k])
    ensures i != -1 ==> 0 <= i < |xs| && matches(xs[i]) && forall k :: 0 <= k < i ==> !matches(xs[k])
  {
    if xs == [] then -1
    else
      var i := Find(xs[..|xs| - 1], matches);
      if i != -1 then i else if matches(xs[|xs| - 1]) then |xs| - 1 else -1
  }

  function FindProfile(ps: seq<Profile>, name: string): (i: int)
    ensures i == -1 ==> forall k :: 0 <= k < |ps| ==> ps[k].name != name
    ensures i != -1 ==> 0 <= i < |ps| && ps[i].name == name && forall k :: 0 <= k < i ==> ps[k].name != name
  {
    Find(ps, (p: Profile) => p.name == name)
  }

  function FindAttribute(attrs: seq<Attribute>, ctl: Ctl): (i: int)
    ensures i == -1 ==> forall k :: 0 <= k < |attrs| ==> attrs[k].ctl != ctl
    ensures i != -1 ==> 0 <= i < |attrs| && attrs[i].ctl == ctl && forall k :: 0 <= k < i ==> attrs[k].ctl != ctl
  {
    Find(attrs, (a: Attribute) => a.ctl == ctl)
  }

  predicate HasItem(items: seq<Item>, ctl: Ctl) {
    exists k :: 0 <= k < |items| && items[k].ctl == ctl
  }

  /** The size of a table that is to take one more entry. */
  function Grown(length: nat, size: nat, initial: nat): nat {
    if size > length then size else if size == 0 then initial else 2 * size
  }

  /** The slots after a successful append. */
  function Slots(length: nat, size: nat, slots: nat, initial: nat): nat {
    if size > length then slots else Grown(length, size, initial)
  }

  // ---------------------------------------------------------------- one element of the description

  function AddProfile(t: Tables, name: string, alloc: bool): Tables {
    if FindProfile(t.profiles, name) != -1 then t.(profile := -1)
    else
      var size := Grown(|t.profiles|, t.profileSize, INITIAL_PROFILE_SIZE);
      if t.profileSize <= |t.profiles| && !alloc then t.(profileSize := size, profile := -1)
      else t.(profiles := t.profiles + [Profile(name, [], 0, 0)], profileSize := size,
              profileSlots := Slots(|t.profiles|, t.profileSize, t.profileSlots, INITIAL_PROFILE_SIZE), profile := |t.profiles|)
  }

  function AddItem(p: Profile, item: Item, alloc: bool): Profile {
    if HasItem(p.items, item.ctl) then p
    else
      var size := Grown(|p.items|, p.size, INITIAL_PROFILE_ITEM_SIZE);
      if p.size <= |p.items| && !alloc then p.(size := size)
      else
        p.(items := p.items + [item], size := size,
           slots := Slots(|p.items|, p.size, p.slots, INITIAL_PROFILE_ITEM_SIZE))
  }

  function AddAttribute(t: Tables, ctl: Ctl, alloc: bool): Tables {
    if FindAttribute(t.attributes, ctl) != -1 then t.(attribute := -1)
    else
      var size := Grown(|t.attributes|, t.attributeSize, INITIAL_PROFILE_ITEM_SIZE);
      if t.attributeSize <= |t.attributes| && !alloc then t.(attributeSize := size, attribute := -1)
      else t.(attributes := t.attributes + [Attribute(ctl, 0, false)], attributeSize := size,
              attributeSlots := Slots(|t.attributes|, t.attributeSize, t.attributeSlots, INITIAL_PROFILE_ITEM_SIZE),
              attribute := |t.attributes|)
  }

  function Start(t: Tables, tag: Tag): Tables
    requires t.profile < |t.profiles| && t.attribute < |t.attributes|
  {
    match tag
    case ProfileTag(name, alloc) => AddProfile(t, name, alloc)
    case PgaTag(item, alloc) =>
      if t.profile < 0 then t
      else t.(profiles := t.profiles[t.profile := AddItem(t.profiles[t.profile], item, alloc)])
    case MixerTag(ctl, alloc) => AddAttribute(t, ctl, alloc)
    case AttrTag(max, inverse) =>
      if t.attribute < 0 then t
      else t.(attributes := t.attributes[t.attribute := t.attributes[t.attribute].(max := max, inverse := inverse)])
  }

  // ---------------------------------------------------------------- what every description keeps

  predicate UniqueItems(items: seq<Item>) {
    forall i, j :: 0 <= i < j < |items| ==> items[i].ctl != items[j].ctl
  }

  predicate UniqueNames(ps: seq<Profile>) {
    forall i, j :: 0 <= i < j < |ps| ==> ps[i].name != ps[j].name
  }

  predicate UniqueAttributes(attrs: seq<Attribute>) {
    forall i, j :: 0 <= i < j < |attrs| ==> attrs[i].ctl != attrs[j].ctl
  }

  predicate SoundProfile(p: Profile) {
    UniqueItems(p.items) && |p.items| <= p.size && p.slots <= p.size
  }

  predicate Sound(t: Tables) {
    && UniqueNames(t.profiles) && |t.profiles| <= t.profileSize && t.profileSlots <= t.profileSize
    && (forall i :: 0 <= i < |t.profiles| ==> SoundProfile(t.profiles[i]))
    && UniqueAttributes(t.attributes) && |t.attributes| <= t.attributeSize && t.attributeSlots <= t.attributeSize
    && -1 <= t.profile < |t.profiles|
    && -1 <= t.attribute < |t.attributes|
  }

  lemma AddItemKeepsSound(p: Profile, item: Item, alloc: bool)
    requires SoundProfile(p)
    ensures SoundProfile(AddItem(p, item, alloc))
  {
  }

  lemma StartKeepsSound(t: Tables, tag: Tag)
    requires Sound(t)
    ensures Sound(Start(t, tag))
  {
    hide SoundProfile, AddItem;
    match tag
    case ProfileTag(name, alloc) => SoundWhenEmpty(name);
    case PgaTag(item, alloc) =>
      if t.profile >= 0 {
        AddItemKeepsSound(t.profiles[t.profile], item, alloc);
        AddItemKeepsName(t.profiles[t.profile], item, alloc);
      }
    case MixerTag(ctl, alloc) =>
    case AttrTag(max, inverse) =>
  }

  lemma SoundWhenEmpty(name: string)
    ensures SoundProfile(Profile(name, [], 0, 0))
  {
  }

  lemma AddItemKeepsName(p: Profile, item: Item, alloc: bool)
    ensures AddItem(p, item, alloc).name == p.name
  {
  }

  ghost function Parse(t: Tables, tags: seq<Tag>): (r: Tables)
    requires Sound(t)
    ensures Sound(r)
    decreases |tags|
  {
    if tags == [] then t
    else
      StartKeepsSound(t, tags[0]);
      Parse(Start(t, tags[0]), tags[1..])
  }

  // ---------------------------------------------------------------- size and storage

  /** The storage of a table is what its size says, unless it has to grow for its next entry anyway. */
  predicate HasRoom(length: nat, size: nat, slots: nat) {
    length < size ==> slots == size
  }

  predicate ProfileRoom(p: Profile) {
    HasRoom(|p.items|, p.size, p.slots)
  }

  predicate Room(t: Tables) {
    && HasRoom(|t.profiles|, t.profileSize, t.profileSlots)
    && (forall i :: 0 <= i < |t.profiles| ==> ProfileRoom(t.profiles[i]))
    && HasRoom(|t.attributes|, t.attributeSize, t.attributeSlots)
  }

  /** The table an element adds to; an attr element adds to none. */
  datatype Target = Target(length: nat, size: nat, slots: nat, initial: nat)

  function TargetOf(t: Tables, tag: Tag): Target
    requires Sound(t) && (tag.PgaTag? ==> t.profile >= 0)
  {
    match tag
    case ProfileTag(_, _) => Target(|t.profiles|, t.profileSize, t.profileSlots, INITIAL_PROFILE_SIZE)
    case PgaTag(_, _) =>
      var p := t.profiles[t.profile];
      Target(|p.items|, p.size, p.slots, INITIAL_PROFILE_ITEM_SIZE)
    case _ => Target(|t.attributes|, t.attributeSize, t.attributeSlots, INITIAL_PROFILE_ITEM_SIZE)
  }

  /** The element brings an entry that its table does not have. */
  predicate IsNew(t: Tables, tag: Tag)
    requires Sound(t)
  {
    match tag
    case ProfileTag(name, _) => FindProfile(t.profiles, name) == -1
    case PgaTag(item, _) => t.profile >= 0 && !HasItem(t.profiles[t.profile].items, item.ctl)
    case MixerTag(ctl, _) => FindAttribute(t.attributes, ctl) == -1
    case AttrTag(_, _) => false
  }

  predicate MustGrow(g: Target) {
    g.size <= g.length
  }

  /** The table has to grow and cannot. */
  predicate FailsToGrow(t: Tables, tag: Tag)
    requires Sound(t)
  {
    IsNew(t, tag) && MustGrow(TargetOf(t, tag)) && !tag.alloc
  }

  /** The new entry is written into a slot that has been allocated. */
  predicate WritesInside(t: Tables, tag: Tag)
    requires Sound(t)
  {
    IsNew(t, tag) && !FailsToGrow(t, tag) ==>
      var g := TargetOf(t, tag);
      g.length < Slots(g.length, g.size, g.slots, g.initial)
  }

  /** An entry is written outside its table's storage exactly if the table thinks it need not grow and has no
      slot left. */
  lemma WritesInsideExactly(t: Tables, tag: Tag)
    requires Sound(t)
    ensures WritesInside(t, tag) <==>
      (IsNew(t, tag) ==> var g := TargetOf(t, tag); MustGrow(g) || g.length < g.slots)
  {
    hide SoundProfile, UniqueNames, UniqueAttributes, FindProfile, FindAttribute, HasItem;
    if tag.PgaTag? && t.profile >= 0 {
      SizeOf(t.profiles[t.profile]);
    }
  }

  lemma SizeOf(p: Profile)
    requires SoundProfile(p)
    ensures |p.items| <= p.size && p.slots <= p.size
  {
  }

  /** An element keeps room in every table exactly if it does not make one fail to grow: the size has been
      doubled by then, and the storage has not. */
  lemma RoomExactly(t: Tables, tag: Tag)
    requires Sound(t) && Room(t)
    ensures WritesInside(t, tag)
    ensures Room(Start(t, tag)) <==> !FailsToGrow(t, tag)
  {
    WritesInsideExactly(t, tag);
    hide UniqueNames, UniqueAttributes, SoundProfile, AddItem, HasItem, ProfileRoom;
    match tag
    case ProfileTag(name, alloc) => NewRoom(name);
    case PgaTag(item, alloc) =>
      if t.profile >= 0 {
        AddItemRoom(t.profiles[t.profile], item, alloc);
        var t1 := Start(t, tag);
        assert forall i :: 0 <= i < |t.profiles| && i != t.profile ==> t1.profiles[i] == t.profiles[i];
        assert t1.profiles[t.profile] == AddItem(t.profiles[t.profile], item, alloc);
      }
    case MixerTag(ctl, alloc) =>
    case AttrTag(max, inverse) =>
  }

  lemma NewRoom(name: string)
    ensures ProfileRoom(Profile(name, [], 0, 0))
  {
  }

  lemma AddItemRoom(p: Profile, item: Item, alloc: bool)
    requires SoundProfile(p) && ProfileRoom(p)
    ensures ProfileRoom(AddItem(p, item, alloc)) <==> HasItem(p.items, item.ctl) || |p.items| < p.size || alloc
    ensures ProfileRoom(p)
  {
  }

  /** No element of a description writes outside its table. */
  ghost predicate AllInside(t: Tables, tags: seq<Tag>)
    requires Sound(t)
    decreases |tags|
  {
    tags != [] ==>
      && WritesInside(t, tags[0])
      && (StartKeepsSound(t, tags[0]); AllInside(Start(t, tags[0]), tags[1..]))
  }

  /** The tables, by name; a profile's items are known by its place. */
  datatype TableId = ProfileTable | ItemTable(profile: nat) | AttributeTable

  predicate Exists(t: Tables, id: TableId) {
    id.ItemTable? ==> id.profile < |t.profiles|
  }

  function TableAt(t: Tables, id: TableId): Target
    requires Exists(t, id)
  {
    match id
    case ProfileTable => Target(|t.profiles|, t.profileSize, t.profileSlots, INITIAL_PROFILE_SIZE)
    case ItemTable(k) =>
      Target(|t.profiles[k].items|, t.profiles[k].size, t.profiles[k].slots, INITIAL_PROFILE_ITEM_SIZE)
    case AttributeTable => Target(|t.attributes|, t.attributeSize, t.attributeSlots, INITIAL_PROFILE_ITEM_SIZE)
  }

  function TableOf(t: Tables, tag: Tag): TableId
    requires Sound(t) && (tag.PgaTag? ==> t.profile >= 0)
  {
    match tag
    case ProfileTag(_, _) => ProfileTable
    case PgaTag(_, _) => ItemTable(t.profile)
    case _ => AttributeTable
  }

  /** No element is new for a table that has failed to grow, before or in this description. */
  ghost predicate NoneAfterFailure(t: Tables, tags: seq<Tag>, failed: set<TableId>)
    requires Sound(t)
    decreases |tags|
  {
    tags != [] ==>
      && (IsNew(t, tags[0]) ==> TableOf(t, tags[0]) !in failed)
      && (StartKeepsSound(t, tags[0]); NoneAfterFailure(Start(t, tags[0]), tags[1..], FailedBy(t, tags[0], failed)))
  }

  ghost function FailedBy(t: Tables, tag: Tag, failed: set<TableId>): set<TableId>
    requires Sound(t)
  {
    if FailsToGrow(t, tag) then failed + {TableOf(t, tag)} else failed
  }

  /** A table that has failed is as full as its storage and does not know it; the others are as they say. */
  predicate Fine(g: Target, failed: bool) {
    if failed then g.length < g.size && g.slots <= g.length else HasRoom(g.length, g.size, g.slots)
  }

  ghost predicate RoomBut(t: Tables, failed: set<TableId>) {
    && (forall id :: id in failed ==> Exists(t, id))
    && (forall id :: Exists(t, id) ==> Fine(TableAt(t, id), id in failed))
  }

  /** What an element makes of the table that it adds to. */
  function Appended(g: Target, alloc: bool): Target {
    var size := Grown(g.length, g.size, g.initial);
    if MustGrow(g) && !alloc then g.(size := size)
    else Target(g.length + 1, size, Slots(g.length, g.size, g.slots, g.initial), g.initial)
  }

  lemma TargetIsTable(t: Tables, tag: Tag)
    requires Sound(t) && (tag.PgaTag? ==> t.profile >= 0)
    ensures Exists(t, TableOf(t, tag)) && TargetOf(t, tag) == TableAt(t, TableOf(t, tag))
  {
  }

  /** Only the table of a new entry changes, and a new profile brings an empty table of items. */
  lemma OthersStay(t: Tables, tag: Tag, id: TableId)
    requires Sound(t) && Exists(Start(t, tag), id)
    ensures IsNew(t, tag) && id == TableOf(t, tag) ==> TableAt(Start(t, tag), id) == Appended(TableAt(t, id), tag.alloc)
    ensures !(IsNew(t, tag) && id == TableOf(t, tag)) && Exists(t, id) ==> TableAt(Start(t, tag), id) == TableAt(t, id)
    ensures !Exists(t, id) ==> TableAt(Start(t, tag), id) == Target(0, 0, 0, INITIAL_PROFILE_ITEM_SIZE)
  {
    hide UniqueNames, UniqueAttributes, SoundProfile, FindProfile, FindAttribute, HasItem;
  }

  lemma TablesStay(t: Tables, tag: Tag, id: TableId)
    requires Sound(t) && Exists(t, id)
    ensures Exists(Start(t, tag), id)
  {
    hide UniqueNames, UniqueAttributes, SoundProfile, FindProfile, FindAttribute, AddItem;
  }

  lemma SizeBounds(t: Tables, id: TableId)
    requires Sound(t) && Exists(t, id)
    ensures var g := TableAt(t, id); g.length <= g.size && g.slots <= g.size && g.initial > 0
  {
    if id.ItemTable? {
      SizeOf(t.profiles[id.profile]);
    }
  }

  lemma AppendFine(g: Target, alloc: bool)
    requires g.length <= g.size && g.slots <= g.size && g.initial > 0 && HasRoom(g.length, g.size, g.slots)
    ensures Fine(Appended(g, alloc), MustGrow(g) && !alloc)
  {
  }

  /** An element writes inside exactly if it is not new for a failed table, and then it adds its table to the
      failed ones exactly if it fails to grow it. */
  lemma StepInside(t: Tables, tag: Tag, failed: set<TableId>)
    requires Sound(t) && RoomBut(t, failed)
    ensures WritesInside(t, tag) <==> (IsNew(t, tag) ==> TableOf(t, tag) !in failed)
    ensures WritesInside(t, tag) ==> RoomBut(Start(t, tag), FailedBy(t, tag, failed))
  {
    hide Sound, IsNew, Start, TargetOf, TableOf;
    WritesInsideExactly(t, tag);
    if IsNew(t, tag) {
      NewHasTable(t, tag);
      TargetIsTable(t, tag);
      SizeBounds(t, TableOf(t, tag));
      assert Fine(TableAt(t, TableOf(t, tag)), TableOf(t, tag) in failed);
    }
    if WritesInside(t, tag) {
      RoomAfter(t, tag, failed);
    }
  }

  lemma NewHasTable(t: Tables, tag: Tag)
    requires Sound(t) && IsNew(t, tag)
    ensures !tag.AttrTag? && (tag.PgaTag? ==> t.profile >= 0)
  {
  }

  lemma RoomAfter(t: Tables, tag: Tag, failed: set<TableId>)
    requires Sound(t) && RoomBut(t, failed) && (IsNew(t, tag) ==> (tag.PgaTag? ==> t.profile >= 0))
    requires IsNew(t, tag) ==> TableOf(t, tag) !in failed
    ensures RoomBut(Start(t, tag), FailedBy(t, tag, failed))
  {
    hide UniqueNames, SoundProfile, UniqueAttributes, IsNew, Start, TargetOf, TableOf, TableAt, HasRoom;
    var t1, failed1 := Start(t, tag), FailedBy(t, tag, failed);
    if IsNew(t, tag) {
      NewHasTable(t, tag);
      TargetIsTable(t, tag);
    }
    forall id | id in failed1 ensures Exists(t1, id) {
      TablesStay(t, tag, id);
    }
    forall id | Exists(t1, id) ensures Fine(TableAt(t1, id), id in failed1) {
      OthersStay(t, tag, id);
      if !Exists(t, id) {
        EmptyFine();
      } else if IsNew(t, tag) && id == TableOf(t, tag) {
        SizeBounds(t, id);
        AppendFine(TableAt(t, id), tag.alloc);
      }
    }
  }

  lemma EmptyFine()
    ensures Fine(Target(0, 0, 0, INITIAL_PROFILE_ITEM_SIZE), false)
  {
  }

  /** A description writes every entry inside its table exactly if none is new for a table whose growth has
      failed before. */
  lemma {:induction false} InsideExactly(t: Tables, tags: seq<Tag>, failed: set<TableId>)
    requires Sound(t) && RoomBut(t, failed)
    ensures AllInside(t, tags) <==> NoneAfterFailure(t, tags, failed)
    decreases |tags|
  {
    if tags != [] {
      hide Sound, IsNew, Start, TableOf, RoomBut, WritesInside;
      StartKeepsSound(t, tags[0]);
      StepInside(t, tags[0], failed);
      if WritesInside(t, tags[0]) {
        InsideExactly(Start(t, tags[0]), tags[1..], FailedBy(t, tags[0], failed));
      }
    }
  }

  /** From empty tables: the description of a device. */
  lemma DescriptionInside(tags: seq<Tag>)
    ensures Sound(EMPTY) && (AllInside(EMPTY, tags) <==> NoneAfterFailure(EMPTY, tags, {}))
  {
    EmptySound();
    InsideExactly(EMPTY, tags, {});
  }

  lemma EmptySound()
    ensures Sound(EMPTY) && RoomBut(EMPTY, {})
  {
  }

  /** The tables before element i. */
  ghost function Before(t: Tables, tags: seq<Tag>, i: nat): (r: Tables)
    requires Sound(t) && i <= |tags|
    ensures Sound(r)
    decreases i
  {
    if i == 0 then t
    else
      StartKeepsSound(t, tags[0]);
      Before(Start(t, tags[0]), tags[1..], i - 1)
  }

  /** A new entry of a failed table is written outside, whatever comes before it. */
  lemma {:induction false} FailedIsOutside(t: Tables, tags: seq<Tag>, failed: set<TableId>, j: nat)
    requires Sound(t) && j < |tags|
    requires IsNew(Before(t, tags, j), tags[j]) && TableOf(Before(t, tags, j), tags[j]) in failed
    ensures !NoneAfterFailure(t, tags, failed)
    decreases j
  {
    if j > 0 {
      hide Sound, IsNew, Start, TableOf, FailsToGrow;
      StartKeepsSound(t, tags[0]);
      FailedIsOutside(Start(t, tags[0]), tags[1..], FailedBy(t, tags[0], failed), j - 1);
    }
  }

  /** If element i fails to grow a table and a later element j is new for it, with any elements in between, the
      description writes outside its tables. */
  lemma {:induction false} LaterIsOutside(t: Tables, tags: seq<Tag>, failed: set<TableId>, i: nat, j: nat)
    requires Sound(t) && RoomBut(t, failed) && i < j < |tags|
    requires FailsToGrow(Before(t, tags, i), tags[i]) && IsNew(Before(t, tags, j), tags[j])
    requires TableOf(Before(t, tags, i), tags[i]) == TableOf(Before(t, tags, j), tags[j])
    ensures !AllInside(t, tags)
    decreases i
  {
    StartKeepsSound(t, tags[0]);
    StepInside(t, tags[0], failed);
    if WritesInside(t, tags[0]) {
      hide Sound, IsNew, Start, TableOf, RoomBut, WritesInside;
      var t1, failed1 := Start(t, tags[0]), FailedBy(t, tags[0], failed);
      if i == 0 {
        FailedIsOutside(t1, tags[1..], failed1, j - 1);
        InsideExactly(t1, tags[1..], failed1);
      } else {
        LaterIsOutside(t1, tags[1..], failed1, i - 1, j - 1);
      }
    }
  }

  predicate Allocated(tags: seq<Tag>) {
    forall i :: 0 <= i < |tags| && !tags[i].AttrTag? ==> tags[i].alloc
  }

  lemma {:induction false} AllocatedInside(t: Tables, tags: seq<Tag>)
    requires Sound(t) && Room(t) && Allocated(tags)
    ensures AllInside(t, tags)
    decreases |tags|
  {
    if tags != [] {
      hide Start, Room, Sound, WritesInside;
      assert !FailsToGrow(t, tags[0]);
      RoomExactly(t, tags[0]);
      StartKeepsSound(t, tags[0]);
      AllocatedInside(Start(t, tags[0]), tags[1..]);
    }
  }

  function Power(n: nat): nat {
    if n == 0 then 1 else 2 * Power(n - 1)
  }

  /** The storage is what the size says: nothing for no entries, else the initial size doubled as often as the
      entries need, and no oftener. */
  ghost predicate Snug(g: Target) {
    && g.slots == g.size
    && (g.length == 0 ==> g.size == 0)
    && (g.length > 0 ==> g.length <= g.size && exists j: nat :: Doubled(g, j))
  }

  predicate Doubled(g: Target, j: nat) {
    g.size == g.initial * Power(j) && (j > 0 ==> g.initial * Power(j - 1) < g.length)
  }

  lemma AppendSnug(g: Target)
    requires Snug(g) && g.initial > 0
    ensures Snug(Appended(g, true))
  {
    var g1 := Appended(g, true);
    if g.length == 0 {
      assert Doubled(g1, 0);
    } else {
      var j: nat :| Doubled(g, j);
      if MustGrow(g) {
        DoubledAgain(g.initial, j);
        assert Doubled(g1, j + 1);
      } else {
        assert Doubled(g1, j);
      }
    }
  }

  lemma DoubledAgain(initial: nat, j: nat)
    ensures initial * Power(j + 1) == 2 * (initial * Power(j))
  {
  }

  ghost predicate AllSnug(t: Tables) {
    forall id :: Exists(t, id) ==> Snug(TableAt(t, id))
  }

  lemma StartSnug(t: Tables, tag: Tag)
    requires Sound(t) && AllSnug(t) && (!tag.AttrTag? ==> tag.alloc)
    ensures AllSnug(Start(t, tag))
  {
    hide UniqueNames, SoundProfile, UniqueAttributes, IsNew, Start, TableOf, TableAt, Snug, Appended, Exists;
    var t1 := Start(t, tag);
    if IsNew(t, tag) {
      NewHasTable(t, tag);
    }
    forall id | Exists(t1, id) ensures Snug(TableAt(t1, id)) {
      OthersStay(t, tag, id);
      if !Exists(t, id) {
        EmptySnug();
      } else if IsNew(t, tag) && id == TableOf(t, tag) {
        SizeBounds(t, id);
        AppendSnug(TableAt(t, id));
      }
    }
  }

  lemma EmptySnug()
    ensures Snug(Target(0, 0, 0, INITIAL_PROFILE_ITEM_SIZE)) && AllSnug(EMPTY)
  {
  }

  /** In a description whose allocations succeed every table takes the least doubling of its initial size that
      holds its entries. */
  lemma {:induction false} GrowthExact(t: Tables, tags: seq<Tag>)
    requires Sound(t) && AllSnug(t) && Allocated(tags)
    ensures AllSnug(Parse(t, tags))
    decreases |tags|
  {
    hide Start, AllSnug, UniqueNames, SoundProfile, UniqueAttributes;
    if tags != [] {
      assert tags[0].AttrTag? || tags[0].alloc;
      StartKeepsSound(t, tags[0]);
      StartSnug(t, tags[0]);
      GrowthExact(Start(t, tags[0]), tags[1..]);
    }
  }

  // ---------------------------------------------------------------- what a description means

  datatype Option<T> = None | Some(value: T)

  function ItemsOf(t: Tables, name: string): Option<seq<Item>> {
    var i := FindProfile(t.profiles, name);
    if i == -1 then None else Some(t.profiles[i].items)
  }

  /** The pga elements up to the next profile element. */
  function Body(tags: seq<Tag>): seq<Item> {
    if tags == [] || tags[0].ProfileTag? then []
    else if tags[0].PgaTag? then [tags[0].item] + Body(tags[1..])
    else Body(tags[1..])
  }

  /** The pga elements of the first profile element with this name. */
  function Section(tags: seq<Tag>, name: string): Option<seq<Item>> {
    if tags == [] then None
    else if tags[0].ProfileTag? && tags[0].name == name then Some(Body(tags[1..]))
    else Section(tags[1..], name)
  }

  /** Without the items whose control was named before. */
  function Firsts(items: seq<Item>): seq<Item> {
    if items == [] then []
    else
      var most, last := items[..|items| - 1], items[|items| - 1];
      if HasItem(most, last.ctl) then Firsts(most) else Firsts(most) + [last]
  }

  lemma HasItemSnoc(items: seq<Item>, item: Item, ctl: Ctl)
    ensures HasItem(items + [item], ctl) <==> HasItem(items, ctl) || item.ctl == ctl
  {
    var all := items + [item];
    assert all[|items|] == item;
    if HasItem(items, ctl) {
      var k :| 0 <= k < |items| && items[k].ctl == ctl;
      assert all[k] == items[k];
    }
  }

  lemma {:induction false} FirstsHasSame(items: seq<Item>, ctl: Ctl)
    ensures HasItem(Firsts(items), ctl) <==> HasItem(items, ctl)
  {
    if items != [] {
      var most, last := items[..|items| - 1], items[|items| - 1];
      assert items == most + [last];
      FirstsHasSame(most, ctl);
      FirstsHasSame(most, last.ctl);
      HasItemSnoc(most, last, ctl);
      HasItemSnoc(Firsts(most), last, ctl);
    }
  }

  lemma FirstsSnoc(items: seq<Item>, item: Item)
    ensures Firsts(items + [item]) == if HasItem(items, item.ctl) then Firsts(items) else Firsts(items) + [item]
  {
    assert (items + [item])[..|items|] == items;
  }

  /** Later elements leave a finished profile alone. */
  lemma {:induction false} FinishedStays(t: Tables, tags: seq<Tag>, name: string)
    requires Sound(t) && FindProfile(t.profiles, name) != -1 && t.profile != FindProfile(t.profiles, name)
    ensures ItemsOf(Parse(t, tags), name) == ItemsOf(t, name)
    decreases |tags|
  {
    hide Start;
    if tags != [] {
      StartKeepsSound(t, tags[0]);
      OtherProfileStays(t, tags[0], name);
      FinishedStays(Start(t, tags[0]), tags[1..], name);
    }
  }

  lemma OtherProfileStays(t: Tables, tag: Tag, name: string)
    requires Sound(t) && FindProfile(t.profiles, name) != -1
    requires t.profile != FindProfile(t.profiles, name) || tag.ProfileTag?
    ensures var t1 := Start(t, tag);
      && FindProfile(t1.profiles, name) == FindProfile(t.profiles, name) != t1.profile
      && ItemsOf(t1, name) == ItemsOf(t, name)
  {
    hide AddItem, FindProfile;
    var i, t1 := FindProfile(t.profiles, name), Start(t, tag);
    if tag.PgaTag? && t.profile >= 0 {
      AddItemKeepsName(t.profiles[t.profile], tag.item, tag.alloc);
    }
    assert i < |t1.profiles| && t1.profiles[i] == t.profiles[i];
    assert forall k :: 0 <= k < i ==> t1.profiles[k].name == t.profiles[k].name;
    FoundAt(t1.profiles, name, i);
  }

  lemma FoundAt(ps: seq<Profile>, name: string, i: int)
    requires 0 <= i < |ps| && ps[i].name == name && forall k :: 0 <= k < i ==> ps[k].name != name
    ensures FindProfile(ps, name) == i
  {
    hide FindProfile;
  }

  lemma NotFound(ps: seq<Profile>, name: string)
    requires forall k :: 0 <= k < |ps| ==> ps[k].name != name
    ensures FindProfile(ps, name) == -1
  {
    hide FindProfile;
  }

  /** While a profile is open its items are the first ones of their control seen so far. */
  lemma {:induction false} OpenCollects(t: Tables, tags: seq<Tag>, seen: seq<Item>)
    requires Sound(t) && t.profile >= 0 && t.profiles[t.profile].items == Firsts(seen) && Allocated(tags)
    ensures ItemsOf(Parse(t, tags), t.profiles[t.profile].name) == Some(Firsts(seen + Body(tags)))
    decreases |tags|
  {
    hide Start, FindProfile, Firsts, UniqueNames, SoundProfile, UniqueAttributes;
    var name := t.profiles[t.profile].name;
    CurrentFound(t);
    if tags == [] {
      assert seen + Body(tags) == seen;
    } else {
      var t1 := Start(t, tags[0]);
      StartKeepsSound(t, tags[0]);
      assert tags[0] in tags;
      if tags[0].ProfileTag? {
        OtherProfileStays(t, tags[0], name);
        FinishedStays(t1, tags[1..], name);
        assert seen + Body(tags) == seen;
      } else {
        OpenStep(t, tags[0], seen);
        if tags[0].PgaTag? {
          OpenCollects(t1, tags[1..], seen + [tags[0].item]);
          assert (seen + [tags[0].item]) + Body(tags[1..]) == seen + Body(tags);
        } else {
          OpenCollects(t1, tags[1..], seen);
        }
      }
    }
  }

  lemma CurrentFound(t: Tables)
    requires Sound(t) && t.profile >= 0
    ensures t.profile < |t.profiles| && FindProfile(t.profiles, t.profiles[t.profile].name) == t.profile
  {
    FoundAt(t.profiles, t.profiles[t.profile].name, t.profile);
  }

  lemma OpenStep(t: Tables, tag: Tag, seen: seq<Item>)
    requires Sound(t) && t.profile >= 0 && t.profiles[t.profile].items == Firsts(seen)
    requires !tag.ProfileTag? && (tag.PgaTag? ==> tag.alloc)
    ensures var t1 := Start(t, tag);
      && t1.profile == t.profile < |t1.profiles|
      && t1.profiles[t.profile].name == t.profiles[t.profile].name
      && t1.profiles[t.profile].items == Firsts(if tag.PgaTag? then seen + [tag.item] else seen)
  {
    hide Firsts, HasItem;
    if tag.PgaTag? {
      FirstsSnoc(seen, tag.item);
      FirstsHasSame(seen, tag.item.ctl);
    }
  }

  /** Elements that do not declare a profile of this name. */
  lemma UnknownStays(t: Tables, tag: Tag, name: string)
    requires Sound(t) && FindProfile(t.profiles, name) == -1 && !(tag.ProfileTag? && tag.name == name)
    ensures FindProfile(Start(t, tag).profiles, name) == -1
  {
    hide AddItem, FindProfile;
    if tag.PgaTag? && t.profile >= 0 {
      AddItemKeepsName(t.profiles[t.profile], tag.item, tag.alloc);
    }
    NotFound(Start(t, tag).profiles, name);
  }

  lemma NewProfile(t: Tables, name: string)
    requires Sound(t) && FindProfile(t.profiles, name) == -1
    ensures var t1 := Start(t, ProfileTag(name, true));
      0 <= t1.profile < |t1.profiles| && t1.profiles[t1.profile] == Profile(name, [], 0, 0)
  {
  }

  /** A profile holds the pga elements of its first declaration, each control once; later declarations are ignored. */
  lemma {:induction false} ProfileIsFirstSection(t: Tables, tags: seq<Tag>, name: string)
    requires Sound(t) && Allocated(tags) && FindProfile(t.profiles, name) == -1
    ensures ItemsOf(Parse(t, tags), name) == match Section(tags, name)
      case None => None
      case Some(items) => Some(Firsts(items))
    decreases |tags|
  {
    hide Start, FindProfile, UniqueNames, SoundProfile, UniqueAttributes;
    if tags != [] {
      var t1 := Start(t, tags[0]);
      StartKeepsSound(t, tags[0]);
      if tags[0].ProfileTag? && tags[0].name == name {
        NewProfile(t, name);
        OpenCollects(t1, tags[1..], []);
        assert [] + Body(tags[1..]) == Body(tags[1..]);
      } else {
        UnknownStays(t, tags[0], name);
        ProfileIsFirstSection(t1, tags[1..], name);
      }
    }
  }

  function AttributeFor(t: Tables, ctl: Ctl): Option<Attribute> {
    var i := FindAttribute(t.attributes, ctl);
    if i == -1 then None else Some(t.attributes[i])
  }

  /** The last attr element up to the next mixer element, if there is one. */
  function LastAttr(tags: seq<Tag>): (last: Option<Tag>)
    ensures last.Some? ==> last.value.AttrTag?
  {
    if tags == [] || tags[0].MixerTag? then None
    else if LastAttr(tags[1..]).Some? then LastAttr(tags[1..])
    else if tags[0].AttrTag? then Some(tags[0])
    else None
  }

  /** What the first mixer element with this control says of it. */
  function Declared(tags: seq<Tag>, ctl: Ctl): Option<Attribute> {
    if tags == [] then None
    else if tags[0].MixerTag? && tags[0].ctl == ctl then
      match LastAttr(tags[1..])
      case Some(AttrTag(max, inverse)) => Some(Attribute(ctl, max, inverse))
      case _ => Some(Attribute(ctl, 0, false))
    else Declared(tags[1..], ctl)
  }

  lemma {:induction false} DeclaredIffNamed(tags: seq<Tag>, ctl: Ctl)
    ensures Declared(tags, ctl).Some? <==> exists i :: 0 <= i < |tags| && tags[i].MixerTag? && tags[i].ctl == ctl
    decreases |tags|
  {
    if tags != [] && !(tags[0].MixerTag? && tags[0].ctl == ctl) {
      var rest := tags[1..];
      DeclaredIffNamed(rest, ctl);
      assert forall i :: 1 <= i < |tags| ==> tags[i] == rest[i - 1];
      assert forall i :: 0 <= i < |rest| ==> rest[i] == tags[i + 1];
    }
  }

  lemma NoAttribute(attrs: seq<Attribute>, ctl: Ctl)
    requires forall k :: 0 <= k < |attrs| ==> attrs[k].ctl != ctl
    ensures FindAttribute(attrs, ctl) == -1
  {
    hide FindAttribute;
  }

  /** An element that does not declare this control, while another attribute or none is open. */
  lemma OtherAttributeStays(t: Tables, tag: Tag, ctl: Ctl)
    requires Sound(t) && FindAttribute(t.attributes, ctl) != -1
    requires t.attribute != FindAttribute(t.attributes, ctl) || tag.MixerTag?
    ensures var t1 := Start(t, tag);
      && FindAttribute(t1.attributes, ctl) == FindAttribute(t.attributes, ctl) != t1.attribute
      && AttributeFor(t1, ctl) == AttributeFor(t, ctl)
  {
    hide AddProfile, AddItem, FindAttribute, SoundProfile, UniqueNames;
    var i, t1 := FindAttribute(t.attributes, ctl), Start(t, tag);
    if tag.ProfileTag? || tag.PgaTag? {
      ProfilesOnly(t, tag);
    }
    assert i < |t1.attributes| && t1.attributes[i] == t.attributes[i];
    assert forall k :: 0 <= k < i ==> t1.attributes[k].ctl == t.attributes[k].ctl;
    AttributeAt(t1.attributes, ctl, i);
  }

  /** Profile and pga elements leave the attributes alone. */
  lemma ProfilesOnly(t: Tables, tag: Tag)
    requires Sound(t) && (tag.ProfileTag? || tag.PgaTag?)
    ensures Start(t, tag).attributes == t.attributes && Start(t, tag).attribute == t.attribute
  {
  }

  /** Later elements leave a finished attribute alone. */
  lemma {:induction false} FinishedAttributeStays(t: Tables, tags: seq<Tag>, ctl: Ctl)
    requires Sound(t) && FindAttribute(t.attributes, ctl) != -1 && t.attribute != FindAttribute(t.attributes, ctl)
    ensures AttributeFor(Parse(t, tags), ctl) == AttributeFor(t, ctl)
    decreases |tags|
  {
    hide Start;
    if tags != [] {
      StartKeepsSound(t, tags[0]);
      OtherAttributeStays(t, tags[0], ctl);
      FinishedAttributeStays(Start(t, tags[0]), tags[1..], ctl);
    }
  }

  lemma OpenAttributeStep(t: Tables, tag: Tag)
    requires Sound(t) && t.attribute >= 0 && !tag.MixerTag?
    ensures t.attribute < |t.attributes|
    ensures var t1, attr := Start(t, tag), t.attributes[t.attribute];
      && t1.attribute == t.attribute < |t1.attributes|
      && t1.attributes[t.attribute] == if tag.AttrTag? then Attribute(attr.ctl, tag.max, tag.inverse) else attr
  {
    hide AddProfile, AddItem, SoundProfile;
    if tag.ProfileTag? || tag.PgaTag? {
      ProfilesOnly(t, tag);
    }
  }

  /** While an attribute is open it holds what the last attr element said. */
  lemma {:induction false} OpenAttributeHolds(t: Tables, tags: seq<Tag>)
    requires Sound(t) && t.attribute >= 0
    ensures t.attribute < |t.attributes|
    ensures var attr := t.attributes[t.attribute];
      AttributeFor(Parse(t, tags), attr.ctl) == match LastAttr(tags)
        case Some(AttrTag(max, inverse)) => Some(Attribute(attr.ctl, max, inverse))
        case _ => Some(attr)
    decreases |tags|
  {
    hide Start, FindAttribute;
    var attr := t.attributes[t.attribute];
    AttributeAt(t.attributes, attr.ctl, t.attribute);
    if tags != [] {
      StartKeepsSound(t, tags[0]);
      if tags[0].MixerTag? {
        OtherAttributeStays(t, tags[0], attr.ctl);
        FinishedAttributeStays(Start(t, tags[0]), tags[1..], attr.ctl);
      } else {
        OpenAttributeStep(t, tags[0]);
        OpenAttributeHolds(Start(t, tags[0]), tags[1..]);
      }
    }
  }

  /** Elements that do not declare this control bring it no attribute. */
  lemma UndeclaredStays(t: Tables, tag: Tag, ctl: Ctl)
    requires Sound(t) && FindAttribute(t.attributes, ctl) == -1 && !(tag.MixerTag? && tag.ctl == ctl)
    ensures FindAttribute(Start(t, tag).attributes, ctl) == -1
  {
    hide AddProfile, AddItem, FindAttribute, SoundProfile;
    if tag.ProfileTag? || tag.PgaTag? {
      ProfilesOnly(t, tag);
    }
    NoAttribute(Start(t, tag).attributes, ctl);
  }

  lemma NewAttribute(t: Tables, ctl: Ctl)
    requires Sound(t) && FindAttribute(t.attributes, ctl) == -1
    ensures var t1 := Start(t, MixerTag(ctl, true));
      0 <= t1.attribute < |t1.attributes| && t1.attributes[t1.attribute] == Attribute(ctl, 0, false)
  {
  }

  /** A control has an attribute exactly if a mixer element names it, and then the maximum and the flag of the last
      attr element before the next mixer element; later declarations of the control are ignored. */
  lemma {:induction false} AttributeIsFirstDeclared(t: Tables, tags: seq<Tag>, ctl: Ctl)
    requires Sound(t) && Allocated(tags) && FindAttribute(t.attributes, ctl) == -1
    ensures AttributeFor(Parse(t, tags), ctl) == Declared(tags, ctl)
    decreases |tags|
  {
    hide Start, FindAttribute, UniqueNames, SoundProfile, UniqueAttributes;
    if tags != [] {
      var t1 := Start(t, tags[0]);
      StartKeepsSound(t, tags[0]);
      if tags[0].MixerTag? && tags[0].ctl == ctl {
        assert tags[0].alloc;
        NewAttribute(t, ctl);
        OpenAttributeHolds(t1, tags[1..]);
      } else {
        UndeclaredStays(t, tags[0], ctl);
        AttributeIsFirstDeclared(t1, tags[1..], ctl);
      }
    }
  }

  // ---------------------------------------------------------------- applying a profile

  /** The value audio_pga_set writes: the field, counted from the top if the control is inverse. */
  function Setting(word: bv32, item: Item, attr: Attribute): int
    requires Usable(item, attr)
  {
    var v := Value(Field(word, item.bit, BitLength(attr.max)));
    if attr.inverse then Value(attr.max) - v else v
  }

  /** A bit position the shift is defined for, and a maximum that is not negative as an int. */
  predicate Usable(item: Item, attr: Attribute) {
    item.bit < 32 && BitLength(attr.max) <= 31
  }

  function AttributeOf(attrs: seq<Attribute>, ctl: Ctl): Attribute
    requires FindAttribute(attrs, ctl) != -1
  {
    attrs[FindAttribute(attrs, ctl)]
  }

  /** Every item has an attribute, which audio_pga_set relies on. */
  predicate Attributed(items: seq<Item>, attrs: seq<Attribute>) {
    forall i :: 0 <= i < |items| ==>
      FindAttribute(attrs, items[i].ctl) != -1 && Usable(items[i], AttributeOf(attrs, items[i].ctl))
  }

  function Applied(mixer: map<Ctl, int>, items: seq<Item>, attrs: seq<Attribute>, word: bv32): map<Ctl, int>
    requires Attributed(items, attrs)
  {
    if items == [] then mixer
    else
      var most, last := items[..|items| - 1], items[|items| - 1];
      Applied(mixer, most, attrs, word)[last.ctl := Setting(word, last, AttributeOf(attrs, last.ctl))]
  }

  lemma {:induction false} AppliedSets(mixer: map<Ctl, int>, items: seq<Item>, attrs: seq<Attribute>, word: bv32, i: nat)
    requires Attributed(items, attrs) && UniqueItems(items) && i < |items|
    ensures var m := Applied(mixer, items, attrs, word);
      items[i].ctl in m && m[items[i].ctl] == Setting(word, items[i], AttributeOf(attrs, items[i].ctl))
  {
    hide Setting, FindAttribute, Usable;
    if i < |items| - 1 {
      AppliedSets(mixer, items[..|items| - 1], attrs, word, i);
    }
  }

  lemma {:induction false} AppliedKeeps(mixer: map<Ctl, int>, items: seq<Item>, attrs: seq<Attribute>, word: bv32, c: Ctl)
    requires Attributed(items, attrs) && !HasItem(items, c)
    ensures var m := Applied(mixer, items, attrs, word);
      (c in m <==> c in mixer) && (c in m ==> m[c] == mixer[c])
  {
    hide Setting, FindAttribute, Usable, HasItem;
    if items != [] {
      HasItemSnoc(items[..|items| - 1], items[|items| - 1], c);
      assert items == items[..|items| - 1] + [items[|items| - 1]];
      AppliedKeeps(mixer, items[..|items| - 1], attrs, word, c);
    }
  }

  /** Values packed side by side into one word. */
  function Pack(items: seq<Item>, values: seq<bv32>): bv32
    requires |values| == |items| && forall i :: 0 <= i < |items| ==> items[i].bit < 32
  {
    if items == [] then 0
    else
      var n := |items| - 1;
      Or(Pack(items[..n], values[..n]), Shl(values[n], items[n].bit))
  }

  function Width(item: Item, attrs: seq<Attribute>): bv6
    requires FindAttribute(attrs, item.ctl) != -1
  {
    BitLength(AttributeOf(attrs, item.ctl).max)
  }

  /** The fields lie inside the word and do not overlap. */
  predicate Layout(items: seq<Item>, attrs: seq<Attribute>) {
    && (forall i :: 0 <= i < |items| ==> FindAttribute(attrs, items[i].ctl) != -1 && Fits(items[i].bit, Width(items[i], attrs)))
    && (forall i, j :: 0 <= i < j < |items| ==>
          Disjoint(items[i].bit, Width(items[i], attrs), items[j].bit, Width(items[j], attrs)))
  }

  predicate Within(items: seq<Item>, attrs: seq<Attribute>, values: seq<bv32>)
    requires Layout(items, attrs)
  {
    |values| == |items| && forall i :: 0 <= i < |items| ==> AtMost(values[i], AttributeOf(attrs, items[i].ctl).max)
  }

  lemma WithinMask(items: seq<Item>, attrs: seq<Attribute>, values: seq<bv32>, i: nat)
    requires Layout(items, attrs) && Within(items, attrs, values) && i < |items|
    ensures Width(items[i], attrs) <= 31 && Narrow(values[i], Width(items[i], attrs))
  {
    hide Mask, BitLength, AtMost, FindAttribute, Narrow;
    LengthFits(values[i], AttributeOf(attrs, items[i].ctl).max);
  }

  /** A field that overlaps none of the packed ones is zero. */
  lemma {:induction false} PackMisses(items: seq<Item>, attrs: seq<Attribute>, values: seq<bv32>, bit: bv6, width: bv6)
    requires Layout(items, attrs) && Within(items, attrs, values) && Fits(bit, width)
    requires forall i :: 0 <= i < |items| ==> Disjoint(bit, width, items[i].bit, Width(items[i], attrs))
    ensures Field(Pack(items, values), bit, width) == 0
  {
    hide Field, Or, Shl, Mask, Width, FindAttribute, AtMost, BitLength, Narrow;
    if items == [] {
      ZeroField(bit, width);
    } else {
      var n := |items| - 1;
      WithinMask(items, attrs, values, n);
      PackMisses(items[..n], attrs, values[..n], bit, width);
      FieldOfOr(Pack(items[..n], values[..n]), Shl(values[n], items[n].bit), bit, width);
      OtherField(values[n], bit, width, items[n].bit, Width(items[n], attrs));
      OrZero(0);
    }
  }

  /** Unpacking a field gives the value packed into it. */
  lemma {:induction false} PackHits(items: seq<Item>, attrs: seq<Attribute>, values: seq<bv32>, i: nat)
    requires Layout(items, attrs) && Within(items, attrs, values) && i < |items|
    ensures Field(Pack(items, values), items[i].bit, Width(items[i], attrs)) == values[i]
  {
    hide Field, Or, Shl, Mask, Width, FindAttribute, AtMost, BitLength, Narrow;
    var n := |items| - 1;
    var bit, width := items[i].bit, Width(items[i], attrs);
    WithinMask(items, attrs, values, n);
    FieldOfOr(Pack(items[..n], values[..n]), Shl(values[n], items[n].bit), bit, width);
    OrZero(values[i]);
    if i < n {
      PackHits(items[..n], attrs, values[..n], i);
      OtherField(values[n], bit, width, items[n].bit, Width(items[n], attrs));
    } else {
      PackMisses(items[..n], attrs, values[..n], bit, width);
      OwnField(values[n], bit, width);
    }
  }

  /** Packing values into one word and applying it sets every control of the profile to its value. */
  lemma PackThenApply(mixer: map<Ctl, int>, items: seq<Item>, attrs: seq<Attribute>, values: seq<bv32>, i: nat)
    requires UniqueItems(items) && Layout(items, attrs) && Within(items, attrs, values) && i < |items|
    ensures Attributed(items, attrs)
    ensures var m, attr := Applied(mixer, items, attrs, Pack(items, values)), AttributeOf(attrs, items[i].ctl);
      && items[i].ctl in m
      && m[items[i].ctl] == if attr.inverse then Value(attr.max) - Value(values[i]) else Value(values[i])
  {
    hide Field, Or, Shl, Mask, FindAttribute, Pack, Applied, AtMost, BitLength, Disjoint, Value;
    AppliedSets(mixer, items, attrs, Pack(items, values), i);
    PackHits(items, attrs, values, i);
  }

  /** From the description to the mixer: the word that packs values for a profile of a description sets each of
      its controls to its value, or to the declared maximum minus it if the declaration says inverse. */
  lemma DescriptionThenApply(mixer: map<Ctl, int>, tags: seq<Tag>, name: string, values: seq<bv32>, i: nat)
    requires Allocated(tags)
    requires Section(tags, name).Some? && Layout(Firsts(Section(tags, name).value), Parse(EMPTY, tags).attributes)
    requires Within(Firsts(Section(tags, name).value), Parse(EMPTY, tags).attributes, values) && i < |values|
    ensures var t, items := Parse(EMPTY, tags), Firsts(Section(tags, name).value);
      && ItemsOf(t, name) == Some(items) && Attributed(items, t.attributes)
      && var ctl, m := items[i].ctl, Applied(mixer, items, t.attributes, Pack(items, values));
      && ctl in m && Declared(tags, ctl).Some?
      && var attr := Declared(tags, ctl).value;
      m[ctl] == if attr.inverse then Value(attr.max) - Value(values[i]) else Value(values[i])
  {
    hide Field, Or, Shl, Mask, FindAttribute, FindProfile, Pack, Applied, AtMost, BitLength, Disjoint, Value, Start, Firsts;
    var t, items := Parse(EMPTY, tags), Firsts(Section(tags, name).value);
    EmptyTables(name, items[i].ctl);
    ProfileIsFirstSection(EMPTY, tags, name);
    AttributeIsFirstDeclared(EMPTY, tags, items[i].ctl);
    ItemsAreUnique(t, name);
    PackThenApply(mixer, items, t.attributes, values, i);
    assert FindAttribute(t.attributes, items[i].ctl) != -1;
  }

  lemma EmptyTables(name: string, ctl: Ctl)
    ensures FindProfile(EMPTY.profiles, name) == -1 && FindAttribute(EMPTY.attributes, ctl) == -1
  {
  }

  lemma ItemsAreUnique(t: Tables, name: string)
    requires Sound(t) && ItemsOf(t, name).Some?
    ensures UniqueItems(ItemsOf(t, name).value)
  {
    hide FindProfile;
    assert SoundProfile(t.profiles[FindProfile(t.profiles, name)]);
  }

  /** A word whose field exceeds the maximum takes a control out of its range, upwards or below zero. */
  lemma OutOfRange()
    ensures BitLength(5) == 3
    ensures Setting(7, Item(0, 0), Attribute(0, 5, false)) == 7
    ensures Setting(7, Item(0, 0), Attribute(0, 5, true)) == -2
  {
    LengthOf(5, 3);
    hide BitLength;
  }

  // ---------------------------------------------------------------- the code

  class Pga {
    var profiles: seq<Profile>
    var profileSize: nat
    var profileSlots: nat
    var attributes: seq<Attribute>
    var attributeSize: nat
    var attributeSlots: nat
    var profile: int
    var attribute: int
    var mixer: map<Ctl, int>

    ghost function State(): Tables
      reads this
    {
      Tables(profiles, profileSize, profileSlots, attributes, attributeSize, attributeSlots, profile, attribute)
    }

    constructor (controls: map<Ctl, int>)
      ensures State() == EMPTY && mixer == controls
    {
      profiles, profileSize, profileSlots, attributes, attributeSize, attributeSlots := [], 0, 0, [], 0, 0;
      profile, attribute := -1, -1;
      mixer := controls;
    }

    /** profile_get_by_name; -1 is the null pointer. */
    method ProfileGetByName(name: string) returns (i: int)
      ensures i == FindProfile(profiles, name)
    {
      i := 0;
      while i < |profiles|
        invariant 0 <= i <= |profiles| && forall k :: 0 <= k < i ==> profiles[k].name != name
      {
        if profiles[i].name == name {
          FoundAt(profiles, name, i);
          return;
        }
        i := i + 1;
      }
      NotFound(profiles, name);
      i := -1;
    }

    /** attribute_get_by_ctl */
    method AttributeGetByCtl(ctl: Ctl) returns (i: int)
      ensures i == FindAttribute(attributes, ctl)
    {
      i := 0;
      while i < |attributes|
        invariant 0 <= i <= |attributes| && forall k :: 0 <= k < i ==> attributes[k].ctl != ctl
      {
        if attributes[i].ctl == ctl {
          AttributeAt(attributes, ctl, i);
          return;
        }
        i := i + 1;
      }
      assert FindAttribute(attributes, ctl) == -1;
      i := -1;
    }

    /** profile_item_exists */
    static method ProfileItemExists(items: seq<Item>, ctl: Ctl) returns (found: bool)
      ensures found == HasItem(items, ctl)
    {
      for i := 0 to |items|
        invariant !HasItem(items[..i], ctl)
      {
        HasItemSnoc(items[..i], items[i], ctl);
        assert items[..i + 1] == items[..i] + [items[i]];
        if items[i].ctl == ctl {
          return true;
        }
      }
      assert items[..|items|] == items;
      found := false;
    }

    /** profile_create */
    method ProfileCreate(name: string, alloc: bool)
      modifies this`profiles, this`profileSize, this`profileSlots, this`profile
      ensures State() == AddProfile(old(State()), name, alloc)
    {
      var known := ProfileGetByName(name);
      profile := -1;
      if known != -1 {
        return;
      }
      if profileSize <= |profiles| {
        profileSize := if profileSize == 0 then INITIAL_PROFILE_SIZE else profileSize * 2;
        if !alloc {
          return;
        }
        profileSlots := profileSize;
      }
      profile := |profiles|;
      profiles := profiles + [Profile(name, [], 0, 0)];
    }

    /** profile_add_item */
    method ProfileAddItem(item: Item, alloc: bool) returns (ret: int)
      requires 0 <= profile < |profiles|
      modifies this`profiles
      ensures profiles == old(profiles)[profile := AddItem(old(profiles)[profile], item, alloc)]
      ensures ret == if |profiles[profile].items| == |old(profiles)[profile].items| then -1 else 0
    {
      var p := profiles[profile];
      var known := ProfileItemExists(p.items, item.ctl);
      if known {
        return -1;
      }
      if p.size <= |p.items| {
        p := p.(size := if p.size == 0 then INITIAL_PROFILE_ITEM_SIZE else p.size * 2);
        if !alloc {
          profiles := profiles[profile := p];
          return -1;
        }
        p := p.(slots := p.size);
      }
      profiles := profiles[profile := p.(items := p.items + [item])];
      ret := 0;
    }

    /** attribute_create */
    method AttributeCreate(ctl: Ctl, alloc: bool)
      modifies this`attributes, this`attributeSize, this`attributeSlots, this`attribute
      ensures State() == AddAttribute(old(State()), ctl, alloc)
    {
      var known := AttributeGetByCtl(ctl);
      attribute := -1;
      if known != -1 {
        return;
      }
      if attributeSize <= |attributes| {
        attributeSize := if attributeSize == 0 then INITIAL_PROFILE_ITEM_SIZE else attributeSize * 2;
        if !alloc {
          return;
        }
        attributeSlots := attributeSize;
      }
      attribute := |attributes|;
      attributes := attributes + [Attribute(ctl, 0, false)];
    }

    /** audio_pga_start_tag */
    method StartTag(tag: Tag)
      requires Sound(State())
      modifies this`profiles, this`profileSize, this`profileSlots, this`profile
      modifies this`attributes, this`attributeSize, this`attributeSlots, this`attribute
      ensures State() == Start(old(State()), tag) && Sound(State())
    {
      StartKeepsSound(State(), tag);
      hide AddProfile, AddItem, AddAttribute, UniqueNames, UniqueAttributes, SoundProfile;
      match tag
      case ProfileTag(name, alloc) => ProfileCreate(name, alloc);
      case PgaTag(item, alloc) =>
        if profile >= 0 {
          var _ := ProfileAddItem(item, alloc);
        }
      case MixerTag(ctl, alloc) => AttributeCreate(ctl, alloc);
      case AttrTag(max, inverse) =>
        if attribute >= 0 {
          attributes := attributes[attribute := attributes[attribute].(max := max, inverse := inverse)];
        }
    }

    /** audio_pga_set on the shifted word. */
    method AudioPgaSet(item: Item, word: bv32, attr: Attribute)
      requires Usable(item, attr)
      modifies this`mixer
      ensures mixer == old(mixer)[item.ctl := Setting(word, item, attr)]
    {
      hide BitLength, Field, Value;
      var width := Fls(attr.max);
      var field := Masked(ShiftRight(word, item.bit), width);
      FieldIs(word, item.bit, width, field);
      var value: int := ValueOf(field);
      if attr.inverse {
        var max := ValueOf(attr.max);
        value := max - value;
      }
      mixer := mixer[item.ctl := value];
    }

    /** audio_pga_apply: -1 and no change for an unknown name. */
    method AudioPgaApply(word: bv32, name: string) returns (ret: int)
      requires FindProfile(profiles, name) != -1 ==> Attributed(profiles[FindProfile(profiles, name)].items, attributes)
      modifies this`mixer
      ensures ret == (if FindProfile(profiles, name) == -1 then -1 else 0)
      ensures mixer == if ret == -1 then old(mixer) else Applied(old(mixer), profiles[FindProfile(profiles, name)].items, attributes, word)
    {
      hide Setting, Usable;
      var k := ProfileGetByName(name);
      if k == -1 {
        return -1;
      }
      var items := profiles[k].items;
      for i := 0 to |items|
        invariant Attributed(items[..i], attributes)
        invariant mixer == Applied(old(mixer), items[..i], attributes, word)
      {
        var a := AttributeGetByCtl(items[i].ctl);
        AudioPgaSet(items[i], word, attributes[a]);
        AppliedNext(old(mixer), items, attributes, word, i);
      }
      assert items[..|items|] == items;
      ret := 0;
    }
  }

  method Masked(shifted: bv32, width: bv6) returns (v: bv32)
    requires width <= 31
    ensures v == And(shifted, Mask(width))
  {
    var mask: bv32 := (1 << width) - 1;
    v := shifted & mask;
  }

  method ValueOf(v: bv32) returns (n: nat)
    ensures n == Value(v)
  {
    n := v as nat;
  }

  lemma FieldIs(word: bv32, bit: bv6, width: bv6, v: bv32)
    requires bit < 32 && width <= 31 && v == And(ShiftRight(word, bit), Mask(width))
    ensures v == Field(word, bit, width)
  {
    hide And, Mask, ShiftRight;
  }

  lemma AttributeAt(attrs: seq<Attribute>, ctl: Ctl, i: int)
    requires 0 <= i < |attrs| && attrs[i].ctl == ctl && forall k :: 0 <= k < i ==> attrs[k].ctl != ctl
    ensures FindAttribute(attrs, ctl) == i
  {
    hide FindAttribute;
  }

  lemma AppliedNext(mixer: map<Ctl, int>, items: seq<Item>, attrs: seq<Attribute>, word: bv32, i: nat)
    requires Attributed(items, attrs) && i < |items|
    ensures Attributed(items[..i], attrs) && Attributed(items[..i + 1], attrs)
    ensures Applied(mixer, items[..i + 1], attrs, word)
         == Applied(mixer, items[..i], attrs, word)[items[i].ctl := Setting(word, items[i], AttributeOf(attrs, items[i].ctl))]
  {
    hide Setting, Usable, FindAttribute;
    assert items[..i + 1][..i] == items[..i];
  }
}
